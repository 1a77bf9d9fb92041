/**
 * `_copy_config_overrides` (cloud-builder/build.py): copy every
 * `*.example.php` file of the overrides directory into the extracted package's
 * `config` directory under the same name, overwriting and never deleting.
 * Directories are maps from file name to contents.
 */
module ConfigOverlay {
  import opened Wrappers
  import opened Text
  import Glob

  /** The glob the overrides directory is listed with. */
  const OverridePattern: string := "*.example.php"

  datatype OverlayStatus =
    | OverridesDirMissing      // warning, nothing copied
    | PackageConfigMissing     // warning, nothing copied
    | NoOverrideFiles          // nothing matched the glob
    | Copied(names: set<string>)

  datatype Overlay<C> = Overlay(status: OverlayStatus, packageConfig: Option<map<string, C>>)

  /** The override files the glob selects. */
  function Selected<C>(overrides: map<string, C>): set<string> {
    set n | n in overrides && Glob.Match(n, OverridePattern)
  }

  /** The glob selects exactly the names ending in `.example.php`. */
  lemma SelectedIff<C>(overrides: map<string, C>, name: string)
    ensures name in Selected(overrides) <==> name in overrides && EndsWith(name, ".example.php")
  {
    assert OverridePattern == "" + "*" + ".example.php";
    Glob.SingleStarMatch(name, "", ".example.php");
  }

  function CopyConfigOverrides<C>(overrides: Option<map<string, C>>, packageConfig: Option<map<string, C>>): (r: Overlay<C>)
    // A missing directory on either side is only a warning and changes nothing.
    ensures overrides.None? ==> r.status == OverridesDirMissing && r.packageConfig == packageConfig
    ensures overrides.Some? && packageConfig.None? ==> r.status == PackageConfigMissing && r.packageConfig == None
    ensures r.status.Copied? || r.status == NoOverrideFiles ==> overrides.Some? && packageConfig.Some?
    // Otherwise every selected override lands under its own name, and nothing else changes.
    ensures overrides.Some? && packageConfig.Some? ==>
              var dest := packageConfig.value;
              var src := overrides.value;
              && r.packageConfig.Some?
              && r.packageConfig.value.Keys == dest.Keys + Selected(src)
              && (forall n :: n in Selected(src) ==> r.packageConfig.value[n] == src[n])
              && (forall n :: n in dest && n !in Selected(src) ==> r.packageConfig.value[n] == dest[n])
              && (r.status == NoOverrideFiles <==> Selected(src) == {})
              && (r.status.Copied? ==> r.status.names == Selected(src))
  {
    match overrides
    case None => Overlay(OverridesDirMissing, packageConfig)
    case Some(src) =>
      match packageConfig
      case None => Overlay(PackageConfigMissing, None)
      case Some(dest) =>
        var selected := Selected(src);
        if selected == {} then Overlay(NoOverrideFiles, packageConfig)
        else Overlay(Copied(selected), Some(map n | n in dest.Keys + selected :: if n in selected then src[n] else dest[n]))
  }

  /** Applying the overlay a second time changes nothing more. */
  lemma OverlayIdempotent<C>(overrides: map<string, C>, dest: map<string, C>)
    ensures var once := CopyConfigOverrides(Some(overrides), Some(dest)).packageConfig;
            once.Some? && CopyConfigOverrides(Some(overrides), once).packageConfig == once
  {
    var once := CopyConfigOverrides(Some(overrides), Some(dest)).packageConfig.value;
    var twice := CopyConfigOverrides(Some(overrides), Some(once)).packageConfig.value;
    assert twice.Keys == once.Keys;
    forall n | n in twice.Keys
      ensures twice[n] == once[n]
    {
    }
    assert twice == once;
  }
}
