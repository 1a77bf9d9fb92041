/**
 * `_ensure_base_image` (cloud-builder/build.py) as a three-step state machine
 * over the local image store: optionally remove the image, look it up, and run
 * the base-build recipe only when the lookup finds nothing.
 */
module BaseImage {
  import opened Wrappers

  datatype ImageOp = RemoveImage | GetImage | BuildBase

  datatype ImageError =
    | RemoveFailed    // the runtime refused the removal with an error other than "not found"
    | LookupFailed    // the lookup raised an error other than "not found"
    | BuildFailed     // `docker compose ... build frankenphp-base-builder` exited non-zero

  /**
   * The image store before the step, and how the runtime answers: an error on
   * removing a present image, an error on lookup, and whether the recipe succeeds.
   */
  datatype Store = Store(present: bool, removeFails: bool, lookupFails: bool, buildSucceeds: bool)

  datatype Provision = Provision(ops: seq<ImageOp>, error: Option<ImageError>, presentAfter: bool)

  /** Whether the image is in the store when the lookup runs. */
  function PresentAtCheck(s: Store, rebuild: bool): bool {
    s.present && !rebuild
  }

  function EnsureBaseImage(s: Store, rebuild: bool): (p: Provision)
    // Removal is attempted exactly when a rebuild is asked for, and always first.
    ensures (RemoveImage in p.ops) == rebuild
    ensures rebuild ==> p.ops[0] == RemoveImage
    // Removing an absent image is not an error.
    ensures p.error == Some(RemoveFailed) <==> rebuild && s.present && s.removeFails
    // Without a rebuild a present image means the recipe is never run.
    ensures !rebuild && s.present && !s.lookupFails ==> p.ops == [GetImage] && p.error == None
    // The recipe runs exactly when the lookup is reached, succeeds, and finds nothing.
    ensures (BuildBase in p.ops)
        <==> !(rebuild && s.present && s.removeFails) && !s.lookupFails && !PresentAtCheck(s, rebuild)
    ensures BuildBase in p.ops ==> p.ops[|p.ops| - 1] == BuildBase && GetImage in p.ops
    ensures |p.ops| <= 3
    // Success leaves the image in the store.
    ensures p.error == None ==> p.presentAfter
  {
    var removed := if rebuild then [RemoveImage] else [];
    if rebuild && s.present && s.removeFails then Provision(removed, Some(RemoveFailed), true)
    else
      var present := PresentAtCheck(s, rebuild);
      var looked := removed + [GetImage];
      if s.lookupFails then Provision(looked, Some(LookupFailed), present)
      else if present then Provision(looked, None, true)
      else if s.buildSucceeds then Provision(looked + [BuildBase], None, true)
      else Provision(looked + [BuildBase], Some(BuildFailed), false)
  }

  /** With a rebuild of an existing image the order is remove, check, build. */
  lemma RebuildRemovesThenBuilds(s: Store)
    requires s.present && !s.removeFails && !s.lookupFails && s.buildSucceeds
    ensures EnsureBaseImage(s, true) == Provision([RemoveImage, GetImage, BuildBase], None, true)
  {
  }
}
