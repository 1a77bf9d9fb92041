/**
 * `backup_files` (generate-config.py): before generating, each listed
 * configuration file that exists is copied into the run's backup directory
 * under its file name. File systems are maps from path to contents.
 */
module Backup {
  import opened Wrappers
  import opened Paths

  /** A listed file: the directory it sits in (empty at the top level) and its name. */
  datatype Listed = Listed(dir: string, name: string)

  /** The relative path the script writes for a listed file. */
  function PathOf(e: Listed): string {
    if e.dir == "" then e.name else e.dir + "/" + e.name
  }

  /** The files `backup_files` looks for, in order. */
  const FilesToBackup: seq<Listed> := [
    Listed("", "docker-compose.yml"), Listed("traefik", "dynamic.yml"), Listed("config", "durango-apache.conf"),
    Listed("config", "orangescrum-apache.conf"), Listed("", "php-trust-certs.sh"), Listed("", "generate-certs.sh")]

  predicate NoSlashInNames(list: seq<Listed>) {
    forall i, k :: 0 <= i < |list| && 0 <= k < |list[i].name| ==> list[i].name[k] != '/'
  }

  predicate NamesDistinct(list: seq<Listed>) {
    forall i, j :: 0 <= i < j < |list| ==> list[i].name != list[j].name
  }

  /** `Path(p).name` of a listed path is the name it was listed under. */
  lemma NameOfPath(e: Listed)
    requires forall k :: 0 <= k < |e.name| ==> e.name[k] != '/'
    ensures Name(PathOf(e)) == e.name
  {
    if e.dir != "" {
      LastIndexOfAppend(e.dir + "/", e.name, '/');
      assert LastIndexOf(e.dir + "/", '/') == Some(|e.dir|);
      assert (e.dir + "/" + e.name)[|e.dir| + 1..] == e.name;
    }
  }

  /** No listed name contains a slash. */
  lemma BackupNamesHaveNoSlash()
    ensures NoSlashInNames(FilesToBackup)
  {
  }

  /** The six listed files have six different names, so no backup overwrites another. */
  lemma BackupNamesDistinct()
    ensures NamesDistinct(FilesToBackup)
  {
    assert FilesToBackup[0].name[1] == 'o';
    assert FilesToBackup[1].name[1] == 'y';
    assert FilesToBackup[2].name[1] == 'u';
  }

  /** The entries of `list` whose path exists, in list order. */
  function Present<C>(list: seq<Listed>, files: map<string, C>): (r: seq<Listed>)
    ensures forall e :: e in r <==> e in list && PathOf(e) in files
    ensures |r| <= |list|
  {
    if list == [] then []
    else
      var last := list[|list| - 1];
      Present(list[..|list| - 1], files) + (if PathOf(last) in files then [last] else [])
  }

  /** `r` is `list` at the strictly increasing positions `idx`: a subsequence in list order. */
  predicate PicksInOrder(list: seq<Listed>, r: seq<Listed>, idx: seq<nat>) {
    && |idx| == |r|
    && (forall k :: 0 <= k < |idx| ==> idx[k] < |list| && r[k] == list[idx[k]])
    && (forall k, l :: 0 <= k < l < |idx| ==> idx[k] < idx[l])
  }

  /** The present entries keep the order of the list. */
  lemma {:induction false} PresentInOrder<C>(list: seq<Listed>, files: map<string, C>)
    ensures exists idx :: PicksInOrder(list, Present(list, files), idx)
  {
    if list == [] {
      var none: seq<nat> := [];
      assert Present(list, files) == [];
      assert PicksInOrder(list, [], none);
    } else {
      var init := list[..|list| - 1];
      var last := list[|list| - 1];
      PresentInOrder(init, files);
      var r0 := Present(init, files);
      var idx0: seq<nat> :| PicksInOrder(init, r0, idx0);
      PicksExtend(init, last, r0, idx0);
      assert init + [last] == list;
      if PathOf(last) in files {
        assert Present(list, files) == r0 + [last];
        assert PicksInOrder(list, r0 + [last], idx0 + [|init|]);
      } else {
        assert Present(list, files) == r0;
        assert PicksInOrder(list, r0, idx0);
      }
    }
  }

  /** A pick from a list is still one from the list extended at the end, with or without its new last entry. */
  lemma PicksExtend(init: seq<Listed>, last: Listed, r0: seq<Listed>, idx0: seq<nat>)
    requires PicksInOrder(init, r0, idx0)
    ensures PicksInOrder(init + [last], r0, idx0)
    ensures PicksInOrder(init + [last], r0 + [last], idx0 + [|init|])
  {
    var list := init + [last];
    var idx := idx0 + [|init|];
    assert forall k :: 0 <= k < |idx0| ==> init[idx0[k]] == list[idx0[k]];
    assert forall k :: 0 <= k < |idx0| ==> idx[k] == idx0[k];
  }

  /** Looking for the files of two lists in turn finds those of the first, then those of the second. */
  lemma {:induction false} PresentAppend<C>(a: seq<Listed>, b: seq<Listed>, files: map<string, C>)
    ensures Present(a + b, files) == Present(a, files) + Present(b, files)
    decreases |b|
  {
    if b == [] {
      assert a + b == a;
    } else {
      var init := b[..|b| - 1];
      assert (a + b)[..|a + b| - 1] == a + init;
      assert (a + b)[|a + b| - 1] == b[|b| - 1];
      PresentAppend(a, init, files);
    }
  }

  /** The backup directory after copying `es`, in order, into `dir0` under their names. */
  function BackupInto<C>(dir0: map<string, C>, es: seq<Listed>, files: map<string, C>): map<string, C>
    requires forall e :: e in es ==> PathOf(e) in files
  {
    if es == [] then dir0
    else
      var last := es[|es| - 1];
      BackupInto(dir0, es[..|es| - 1], files)[last.name := files[PathOf(last)]]
  }

  /** The backup directory's names are the old ones plus the copied files' names. */
  lemma {:induction false} BackupIntoKeys<C>(dir0: map<string, C>, es: seq<Listed>, files: map<string, C>)
    requires forall e :: e in es ==> PathOf(e) in files
    ensures BackupInto(dir0, es, files).Keys == dir0.Keys + (set e | e in es :: e.name)
  {
    if es != [] {
      var init := es[..|es| - 1];
      var last := es[|es| - 1];
      assert es == init + [last];
      BackupIntoKeys(dir0, init, files);
      BackupIntoSnoc(dir0, init, last, files);
      assert (set e | e in es :: e.name) == (set e | e in init :: e.name) + {last.name};
    }
  }

  /** An old entry no copied file is named after stays as it was. */
  lemma {:induction false} BackupIntoKeepsRest<C>(dir0: map<string, C>, es: seq<Listed>, files: map<string, C>, k: string)
    requires forall e :: e in es ==> PathOf(e) in files
    requires k in dir0 && forall e :: e in es ==> e.name != k
    ensures k in BackupInto(dir0, es, files) && BackupInto(dir0, es, files)[k] == dir0[k]
  {
    if es != [] {
      var init := es[..|es| - 1];
      var last := es[|es| - 1];
      assert es == init + [last];
      BackupIntoKeepsRest(dir0, init, files, k);
      BackupIntoSnoc(dir0, init, last, files);
    }
  }

  /** With distinct names every copied file can be found under its name. */
  lemma {:induction false} BackupIntoHasEach<C>(dir0: map<string, C>, es: seq<Listed>, files: map<string, C>, e: Listed)
    requires forall x :: x in es ==> PathOf(x) in files
    requires NamesDistinct(es) && e in es
    ensures e.name in BackupInto(dir0, es, files) && BackupInto(dir0, es, files)[e.name] == files[PathOf(e)]
  {
    var init := es[..|es| - 1];
    var last := es[|es| - 1];
    assert es == init + [last];
    BackupIntoSnoc(dir0, init, last, files);
    if e != last {
      var j :| 0 <= j < |es| && es[j] == e;
      assert j < |init| && init[j] == e;
      assert NamesDistinct(init);
      BackupIntoHasEach(dir0, init, files, e);
    }
  }

  /** With distinct names every copied file can be found under its name, and the rest of the directory is untouched. */
  lemma BackupIntoContents<C>(dir0: map<string, C>, es: seq<Listed>, files: map<string, C>)
    requires forall e :: e in es ==> PathOf(e) in files
    requires NamesDistinct(es)
    ensures var dir := BackupInto(dir0, es, files);
      && (forall e :: e in es ==> e.name in dir && dir[e.name] == files[PathOf(e)])
      && dir.Keys == dir0.Keys + (set e | e in es :: e.name)
      && forall k :: k in dir0 && (forall e :: e in es ==> e.name != k) ==> dir[k] == dir0[k]
  {
    forall e | e in es
      ensures var dir := BackupInto(dir0, es, files); e.name in dir && dir[e.name] == files[PathOf(e)]
    {
      BackupIntoHasEach(dir0, es, files, e);
    }
    BackupIntoKeys(dir0, es, files);
    forall k | k in dir0 && (forall e :: e in es ==> e.name != k)
      ensures BackupInto(dir0, es, files)[k] == dir0[k]
    {
      BackupIntoKeepsRest(dir0, es, files, k);
    }
  }

  lemma {:induction false} PresentKeepsDistinct<C>(list: seq<Listed>, files: map<string, C>)
    requires NamesDistinct(list)
    ensures NamesDistinct(Present(list, files))
  {
    if list != [] {
      var init := list[..|list| - 1];
      var last := list[|list| - 1];
      assert NamesDistinct(init);
      PresentKeepsDistinct(init, files);
      var r := Present(init, files);
      if PathOf(last) in files {
        forall e | e in r
          ensures e.name != last.name
        {
          var j :| 0 <= j < |init| && init[j] == e;
        }
      }
    }
  }

  lemma PresentSnoc<C>(list: seq<Listed>, i: int, files: map<string, C>)
    requires 0 <= i < |list|
    ensures Present(list[..i + 1], files) == Present(list[..i], files) + (if PathOf(list[i]) in files then [list[i]] else [])
  {
    assert list[..i + 1][..i] == list[..i];
  }

  lemma BackupIntoSnoc<C>(dir0: map<string, C>, es: seq<Listed>, e: Listed, files: map<string, C>)
    requires forall x :: x in es ==> PathOf(x) in files
    requires PathOf(e) in files
    ensures forall x :: x in es + [e] ==> PathOf(x) in files
    ensures BackupInto(dir0, es + [e], files) == BackupInto(dir0, es, files)[e.name := files[PathOf(e)]]
  {
    assert (es + [e])[..|es|] == es;
  }

  /** One step of the copy loop: an existing entry is copied under `Path(path).name`, a missing one is skipped. */
  lemma BackupStep<C>(list: seq<Listed>, i: int, files: map<string, C>, dir0: map<string, C>)
    requires NoSlashInNames(list) && 0 <= i < |list|
    ensures var es := Present(list[..i], files);
      var next := Present(list[..i + 1], files);
      var path := PathOf(list[i]);
      && (path !in files ==> next == es)
      && (path in files ==>
            next == es + [list[i]]
            && BackupInto(dir0, next, files) == BackupInto(dir0, es, files)[Name(path) := files[path]])
  {
    var e := list[i];
    PresentSnoc(list, i, files);
    if PathOf(e) in files {
      assert forall k :: 0 <= k < |e.name| ==> e.name[k] != '/';
      NameOfPath(e);
      BackupIntoSnoc(dir0, Present(list[..i], files), e, files);
    }
  }

  /**
   * What goes wrong in `backup_files`, if anything: `mkdir` raises, or the
   * `copy2` of the k-th existing file (counting from 0) raises. Neither is caught.
   */
  datatype BackupFault = NoFault | MkdirFails | CopyFails(k: nat)

  /** Whether the fault fires while copying `es`. */
  predicate Raises(es: seq<Listed>, fault: BackupFault) {
    fault.MkdirFails? || (fault.CopyFails? && fault.k < |es|)
  }

  /** The files copied before the fault fires: none after a failed `mkdir`, the first k after a failed copy. */
  function Copied(es: seq<Listed>, fault: BackupFault): (r: seq<Listed>)
    ensures |r| <= |es| && r == es[..|r|]
  {
    if fault.MkdirFails? then []
    else if fault.CopyFails? && fault.k < |es| then es[..fault.k]
    else es
  }

  /** When the next copy is the one that fails, it raises with exactly the files copied so far. */
  lemma CopyFaultFires<C>(list: seq<Listed>, i: int, files: map<string, C>, fault: BackupFault)
    requires 0 <= i < |list| && PathOf(list[i]) in files
    requires fault == CopyFails(|Present(list[..i], files)|)
    ensures Raises(Present(list, files), fault)
    ensures Copied(Present(list, files), fault) == Present(list[..i], files)
  {
    var done := Present(list[..i], files);
    var mid := Present(list[..i + 1], files);
    var rest := Present(list[i + 1..], files);
    PresentSnoc(list, i, files);
    assert mid == done + [list[i]];
    PresentAppend(list[..i + 1], list[i + 1..], files);
    assert list[..i + 1] + list[i + 1..] == list;
    PrefixOfAppend(mid, rest, |done|);
    PrefixOfAppend(done, [list[i]], |done|);
  }

  /** A prefix no longer than `a` of `a + b` is a prefix of `a`. */
  lemma PrefixOfAppend(a: seq<Listed>, b: seq<Listed>, n: nat)
    requires n <= |a|
    ensures (a + b)[..n] == a[..n]
  {
  }

  /** With no fault left to fire, everything is copied. */
  lemma CopiesComplete(es: seq<Listed>, fault: BackupFault)
    requires !fault.MkdirFails? && !(fault.CopyFails? && fault.k < |es|)
    ensures !Raises(es, fault) && Copied(es, fault) == es
  {
  }

  /**
   * Creates the backup directory, then copies each entry of `list` whose path
   * exists into it under `Path(path).name`, in list order, until a copy raises.
   */
  method BackupEach<C>(list: seq<Listed>, files: map<string, C>, dir0: map<string, C>, fault: BackupFault)
      returns (backedUp: seq<Listed>, dir: map<string, C>, raised: bool)
    requires NoSlashInNames(list)
    ensures raised <==> Raises(Present(list, files), fault)
    ensures !raised ==> backedUp == Present(list, files)
    ensures backedUp == Copied(Present(list, files), fault)
    ensures dir == BackupInto(dir0, backedUp, files)
  {
    if fault.MkdirFails? {
      return [], dir0, true;
    }
    backedUp, dir, raised := CopyEach(list, files, dir0, fault);
  }

  /** The copy loop of `backup_files`, once its directory exists. */
  method CopyEach<C>(list: seq<Listed>, files: map<string, C>, dir0: map<string, C>, fault: BackupFault)
      returns (backedUp: seq<Listed>, dir: map<string, C>, raised: bool)
    requires NoSlashInNames(list) && !fault.MkdirFails?
    ensures raised <==> Raises(Present(list, files), fault)
    ensures backedUp == Copied(Present(list, files), fault)
    ensures dir == BackupInto(dir0, backedUp, files)
  {
    backedUp := [];
    dir := dir0;
    raised := false;
    var i := 0;
    while i < |list|
      invariant 0 <= i <= |list|
      invariant backedUp == Present(list[..i], files)
      invariant dir == BackupInto(dir0, backedUp, files)
      invariant !(fault.CopyFails? && fault.k < |backedUp|)
    {
      var path := PathOf(list[i]);
      BackupStep(list, i, files, dir0);
      if path in files {
        if fault == CopyFails(|backedUp|) {
          CopyFaultFires(list, i, files, fault);
          raised := true;
          return;
        }
        dir := dir[Name(path) := files[path]];
        backedUp := backedUp + [list[i]];
      }
      i := i + 1;
    }
    assert list[..i] == list;
    CopiesComplete(backedUp, fault);
  }

  /**
   * `backup_files`: the listed configuration files that exist, copied under
   * their names; a failing `mkdir` or copy ends it with the files copied so far.
   */
  method BackupFiles<C>(files: map<string, C>, dir0: map<string, C>, fault: BackupFault)
      returns (backedUp: seq<Listed>, dir: map<string, C>, raised: bool)
    ensures raised <==> Raises(Present(FilesToBackup, files), fault)
    ensures !raised ==> backedUp == Present(FilesToBackup, files)
    ensures backedUp == Copied(Present(FilesToBackup, files), fault)
    ensures dir == BackupInto(dir0, backedUp, files)
  {
    BackupNamesHaveNoSlash();
    backedUp, dir, raised := BackupEach(FilesToBackup, files, dir0, fault);
  }

  /** Every existing listed file is backed up under its own name; nothing else in the directory changes. */
  lemma BackupKeepsEveryFile<C>(files: map<string, C>, dir0: map<string, C>)
    ensures var es := Present(FilesToBackup, files);
      var dir := BackupInto(dir0, es, files);
      && (forall e :: e in FilesToBackup && PathOf(e) in files ==> e.name in dir && dir[e.name] == files[PathOf(e)])
      && dir.Keys == dir0.Keys + (set e | e in es :: e.name)
      && forall k :: k in dir0 && (forall e :: e in es ==> e.name != k) ==> dir[k] == dir0[k]
  {
    BackupNamesDistinct();
    PresentKeepsDistinct(FilesToBackup, files);
    BackupIntoContents(dir0, Present(FilesToBackup, files), files);
  }

  /**
   * Whatever the fault, every file copied before it is in the backup under its
   * own name with its contents, the directory gains exactly their names, and
   * nothing else in it changes.
   */
  lemma BackupKeepsCopied<C>(files: map<string, C>, dir0: map<string, C>, fault: BackupFault)
    ensures var es := Copied(Present(FilesToBackup, files), fault);
      var dir := BackupInto(dir0, es, files);
      && (forall e :: e in es ==> PathOf(e) in files && e.name in dir && dir[e.name] == files[PathOf(e)])
      && dir.Keys == dir0.Keys + (set e | e in es :: e.name)
      && forall k :: k in dir0 && (forall e :: e in es ==> e.name != k) ==> dir[k] == dir0[k]
  {
    var all := Present(FilesToBackup, files);
    var es := Copied(all, fault);
    BackupNamesDistinct();
    PresentKeepsDistinct(FilesToBackup, files);
    assert forall e :: e in es ==> e in all by {
      forall e | e in es ensures e in all {
        var j :| 0 <= j < |es| && es[j] == e;
        assert all[j] == e;
      }
    }
    assert NamesDistinct(es) by {
      forall i, j | 0 <= i < j < |es| ensures es[i].name != es[j].name {
        assert es[i] == all[i] && es[j] == all[j];
      }
    }
    BackupIntoContents(dir0, es, files);
  }
}
