/**
 * The exclusion filter of the manual-tar fallback in `_archive_repo`
 * (cloud-builder/build.py). A tar entry is dropped when any segment of its
 * path equals one of the exclusion names or matches one of the `*` patterns
 * among them, so an excluded directory takes its whole subtree with it.
 */
module ArchiveFilter {
  import opened Text
  import Glob

  /** The members of the exclusion set without a `*`. */
  const ExactNames: set<string> := {
    ".git", ".github", ".gitignore", ".dockerignore", ".env",
    "vendor", "node_modules", "tmp", "logs", "cache",
    ".idea", ".vscode", ".vs", ".settings", ".ddev", ".devcontainer",
    "composer.lock", "package-lock.json", ".phpunit.result.cache",
    "__pycache__", ".DS_Store", "Thumbs.db"
  }

  /** The four members of the exclusion set that contain `*`. */
  const GlobPatterns: set<string> := {".env.*", "*.log", "*.cache", "*.pyc"}

  /** The script's exclusion set: exact names and `*` patterns kept together in one set. */
  const ExcludePatterns: set<string> := ExactNames + GlobPatterns

  /**
   * One path segment is excluded by a pattern set: it is an exact member of the
   * set, or it matches a member that contains `*`.
   */
  predicate SegmentExcluded(part: string, patterns: set<string>) {
    || part in patterns
    || exists p :: p in patterns && '*' in p && Glob.Match(part, p)
  }

  /** A path (as its segments) is kept when none of its segments is excluded. */
  predicate PathKept(parts: seq<string>, patterns: set<string>) {
    forall i :: 0 <= i < |parts| ==> !SegmentExcluded(parts[i], patterns)
  }

  /** No exact name contains `*`; every glob member does. */
  lemma StarOnlyInGlobs()
    ensures forall p :: p in ExactNames ==> '*' !in p
    ensures forall p :: p in GlobPatterns ==> '*' in p
  {
    assert "*.log"[0] == '*' && "*.cache"[0] == '*' && "*.pyc"[0] == '*' && ".env.*"[5] == '*';
  }

  lemma EnvGlob(part: string)
    ensures Glob.Match(part, ".env.*") <==> ".env." <= part
  {
    assert ".env.*" == ".env." + "*" + "";
    Glob.SingleStarMatch(part, ".env.", "");
  }

  lemma SuffixGlob(part: string, tail: string)
    requires Glob.NoStar(tail)
    ensures Glob.Match(part, "*" + tail) <==> EndsWith(part, tail)
  {
    assert "*" + tail == "" + "*" + tail;
    Glob.SingleStarMatch(part, "", tail);
  }

  /**
   * The glob half of the test: exactly the four glob members contain `*`, so
   * only they take part, each as a prefix or suffix test.
   */
  lemma StarMembers()
    ensures forall p :: p in ExcludePatterns && '*' in p <==> p in GlobPatterns
  {
    StarOnlyInGlobs();
  }

  /** Matching one of the four globs is a `.env.` prefix or a `.log`, `.cache` or `.pyc` suffix. */
  lemma GlobMatchIff(part: string)
    ensures (exists p :: p in GlobPatterns && Glob.Match(part, p))
        <==> ".env." <= part || EndsWith(part, ".log") || EndsWith(part, ".cache") || EndsWith(part, ".pyc")
  {
    EnvGlob(part);
    SuffixGlob(part, ".log");
    SuffixGlob(part, ".cache");
    SuffixGlob(part, ".pyc");
    assert "*" + ".log" == "*.log" && "*" + ".cache" == "*.cache" && "*" + ".pyc" == "*.pyc";
    if ".env." <= part || EndsWith(part, ".log") || EndsWith(part, ".cache") || EndsWith(part, ".pyc") {
      var p := if ".env." <= part then ".env.*"
               else if EndsWith(part, ".log") then "*.log"
               else if EndsWith(part, ".cache") then "*.cache"
               else "*.pyc";
      assert p in GlobPatterns && Glob.Match(part, p);
    }
  }

  /** The glob half of the segment test, spelled out. */
  lemma GlobExcludedIff(part: string)
    ensures (exists p :: p in ExcludePatterns && '*' in p && Glob.Match(part, p))
        <==> ".env." <= part || EndsWith(part, ".log") || EndsWith(part, ".cache") || EndsWith(part, ".pyc")
  {
    StarMembers();
    GlobMatchIff(part);
  }

  /** Each glob member, taken as a literal segment name, also satisfies its own glob. */
  lemma GlobMembersMatchThemselves(part: string)
    requires part in GlobPatterns
    ensures ".env." <= part || EndsWith(part, ".log") || EndsWith(part, ".cache") || EndsWith(part, ".pyc")
  {
    if part == ".env.*" {
      assert part[..5] == ".env.";
    } else if part == "*.log" {
      assert part[1..] == ".log";
    } else if part == "*.cache" {
      assert part[1..] == ".cache";
    } else {
      assert part[1..] == ".pyc";
    }
  }

  /** The exclusion test spelled out: the exact names, a `.env.` prefix, or a `.log`, `.cache` or `.pyc` suffix. */
  lemma SegmentExcludedIff(part: string)
    ensures SegmentExcluded(part, ExcludePatterns)
        <==> || part in ExactNames
             || ".env." <= part
             || EndsWith(part, ".log")
             || EndsWith(part, ".cache")
             || EndsWith(part, ".pyc")
  {
    GlobExcludedIff(part);
    if part in GlobPatterns {
      GlobMembersMatchThemselves(part);
    }
  }

  /** `str.split(sep)`: the pieces between separators, empty pieces included. */
  function Split(s: string, sep: char): (r: seq<string>)
    ensures |r| > 0
    ensures forall i :: 0 <= i < |r| ==> sep !in r[i]
    ensures Join(r, sep) == s
  {
    if s == [] then [[]]
    else
      var rest := Split(s[1..], sep);
      if s[0] == sep then
        assert ([[]] + rest)[1..] == rest;
        [[]] + rest
      else
        var r := [[s[0]] + rest[0]] + rest[1..];
        assert r[1..] == rest[1..];
        assert |rest| > 1 ==> Join(rest, sep) == rest[0] + [sep] + Join(rest[1..], sep);
        assert s == [s[0]] + s[1..];
        r
  }

  /** The inverse of `Split`: pieces glued with the separator. */
  function Join(pieces: seq<string>, sep: char): string
    requires |pieces| > 0
  {
    if |pieces| == 1 then pieces[0] else pieces[0] + [sep] + Join(pieces[1..], sep)
  }

  /** `pathlib` segment list of a relative tar entry name: empty and `.` pieces vanish. */
  function Parts(name: string): seq<string> {
    CleanParts(Split(name, '/'))
  }

  function CleanParts(pieces: seq<string>): (r: seq<string>)
    ensures forall i :: 0 <= i < |r| ==> r[i] != "" && r[i] != "."
  {
    if pieces == [] then []
    else if pieces[0] == "" || pieces[0] == "." then CleanParts(pieces[1..])
    else [pieces[0]] + CleanParts(pieces[1..])
  }

  lemma {:induction false} SplitWord(w: string, sep: char, t: string)
    requires sep !in w
    ensures Split(w, sep) == [w]
    ensures Split(w + [sep] + t, sep) == [w] + Split(t, sep)
    decreases |w|
  {
    if w != [] {
      SplitWord(w[1..], sep, t);
      assert (w + [sep] + t)[1..] == w[1..] + [sep] + t;
      assert w == [w[0]] + w[1..];
    } else {
      assert (w + [sep] + t)[1..] == t;
    }
  }

  /** Splitting a joined list of separator-free pieces gives the pieces back. */
  lemma {:induction false} SplitJoin(pieces: seq<string>, sep: char)
    requires |pieces| > 0
    requires forall i :: 0 <= i < |pieces| ==> sep !in pieces[i]
    ensures Split(Join(pieces, sep), sep) == pieces
    decreases |pieces|
  {
    SplitWord(pieces[0], sep, []);
    if |pieces| > 1 {
      SplitJoin(pieces[1..], sep);
      SplitWord(pieces[0], sep, Join(pieces[1..], sep));
      assert pieces == [pieces[0]] + pieces[1..];
    }
  }

  /** The name `tarfile` gives an entry below the archive root `.` is `./a/b`; its segments are `a`, `b`. */
  lemma EntryNameParts(segments: seq<string>)
    requires forall i :: 0 <= i < |segments| ==> segments[i] != "" && segments[i] != "." && '/' !in segments[i]
    ensures Parts(Join(["."] + segments, '/')) == segments
  {
    SplitJoin(["."] + segments, '/');
    assert (["."] + segments)[1..] == segments;
    CleanPartsClean(segments);
  }

  lemma {:induction false} CleanPartsClean(pieces: seq<string>)
    requires forall i :: 0 <= i < |pieces| ==> pieces[i] != "" && pieces[i] != "."
    ensures CleanParts(pieces) == pieces
    decreases |pieces|
  {
    if pieces != [] {
      CleanPartsClean(pieces[1..]);
      assert pieces == [pieces[0]] + pieces[1..];
    }
  }

  /**
   * `tar_filter`: walks the segments of an entry name (`Parts` of the name) and
   * drops the entry at the first excluded one.
   */
  method TarFilter(parts: seq<string>, patterns: set<string>) returns (keep: bool)
    ensures keep <==> PathKept(parts, patterns)
  {
    var i := 0;
    while i < |parts|
      invariant 0 <= i <= |parts|
      invariant forall j :: 0 <= j < i ==> !SegmentExcluded(parts[j], patterns)
    {
      if SegmentExcluded(parts[i], patterns) {
        return false;
      }
      i := i + 1;
    }
    return true;
  }

  /** The paths of a tree that the filter keeps: the reference the manual tar is measured against. */
  function FallbackEntries(tree: set<seq<string>>, patterns: set<string>): set<seq<string>> {
    set p | p in tree && PathKept(p, patterns)
  }

  /** One directory entry of the source tree: its name and, for a directory, its listing. */
  datatype Node = Node(name: string, children: seq<Node>)

  /** Every path the listing `nodes` of the directory `dir` holds, at any depth, as segments. */
  function TreePaths(dir: seq<string>, nodes: seq<Node>): set<seq<string>>
    decreases nodes
  {
    if nodes == [] then {}
    else
      var p := dir + [nodes[0].name];
      {p} + TreePaths(p, nodes[0].children) + TreePaths(dir, nodes[1..])
  }

  /**
   * The walk of `tar.add(REPO, arcname=".", filter=tar_filter, recursive=True)`
   * over the listing `nodes` of the directory `dir`: each entry is offered to
   * the filter, a rejected one is skipped together with everything below it,
   * and only an accepted directory is descended into.
   */
  function TarAdd(dir: seq<string>, nodes: seq<Node>, patterns: set<string>): (added: set<seq<string>>)
    ensures added <= TreePaths(dir, nodes)
    ensures forall p :: p in added ==> PathKept(p, patterns)
    decreases nodes
  {
    if nodes == [] then {}
    else
      var p := dir + [nodes[0].name];
      (if PathKept(p, patterns) then {p} + TarAdd(p, nodes[0].children, patterns) else {})
      + TarAdd(dir, nodes[1..], patterns)
  }

  /**
   * The whole `tar.add` call: the root entry `.`, which has no segments, is
   * offered to the filter first (and always kept), then the walk of its listing.
   */
  function TarAddTree(listing: seq<Node>, patterns: set<string>): (added: set<seq<string>>)
    ensures [] in added
    ensures added == {[]} + FallbackEntries(TreePaths([], listing), patterns)
  {
    TarAddKeepsExactlyKept([], listing, patterns);
    if PathKept([], patterns) then {[]} + TarAdd([], listing, patterns) else {}
  }

  /** Every path listed below `dir` extends `dir` by at least one segment. */
  lemma {:induction false} TreePathsExtend(dir: seq<string>, nodes: seq<Node>, q: seq<string>)
    requires q in TreePaths(dir, nodes)
    ensures |q| > |dir| && q == dir + q[|dir|..]
    decreases nodes
  {
    var p := dir + [nodes[0].name];
    if q in TreePaths(p, nodes[0].children) {
      TreePathsExtend(p, nodes[0].children, q);
      assert q[..|p|] == p;
    } else if q in TreePaths(dir, nodes[1..]) {
      TreePathsExtend(dir, nodes[1..], q);
    }
  }

  /**
   * The pruned walk archives exactly the tree's paths that the filter keeps:
   * skipping a rejected directory loses nothing the filter would have kept.
   */
  lemma {:induction false} TarAddKeepsExactlyKept(dir: seq<string>, nodes: seq<Node>, patterns: set<string>)
    ensures TarAdd(dir, nodes, patterns) == FallbackEntries(TreePaths(dir, nodes), patterns)
    decreases nodes
  {
    if nodes != [] {
      var p := dir + [nodes[0].name];
      var below := TreePaths(p, nodes[0].children);
      TarAddKeepsExactlyKept(dir, nodes[1..], patterns);
      if PathKept(p, patterns) {
        TarAddKeepsExactlyKept(p, nodes[0].children, patterns);
      } else {
        forall q | q in below
          ensures !PathKept(q, patterns)
        {
          TreePathsExtend(p, nodes[0].children, q);
          ExcludedDirDropsSubtree(p, q[|p|..], patterns);
        }
      }
    }
  }

  /** An excluded directory removes everything below it. */
  lemma ExcludedDirDropsSubtree(dir: seq<string>, below: seq<string>, patterns: set<string>)
    requires !PathKept(dir, patterns)
    ensures !PathKept(dir + below, patterns)
  {
    var i :| 0 <= i < |dir| && SegmentExcluded(dir[i], patterns);
    assert (dir + below)[i] == dir[i];
  }

  /** A kept entry's ancestors are all kept, so the archive is closed under parent directories. */
  lemma KeptEntryHasKeptParents(dir: seq<string>, below: seq<string>, patterns: set<string>)
    requires PathKept(dir + below, patterns)
    ensures PathKept(dir, patterns)
  {
    forall i | 0 <= i < |dir|
      ensures !SegmentExcluded(dir[i], patterns)
    {
      assert (dir + below)[i] == dir[i];
    }
  }

  lemma VendorExcluded()
    ensures SegmentExcluded("vendor", ExcludePatterns)
  {
  }

  lemma SrcKept()
    ensures !SegmentExcluded("src", ExcludePatterns)
  {
    SegmentExcludedIff("src");
  }

  lemma BarPhpKept()
    ensures !SegmentExcluded("bar.php", ExcludePatterns)
  {
    SegmentExcludedIff("bar.php");
    assert "bar.php"[3..] != ".log" && "bar.php"[1..] != ".cache" && "bar.php"[3..] != ".pyc";
  }

  /** A directory and a file in it are both kept when neither name is excluded. */
  lemma PairKept(dir: string, file: string, patterns: set<string>)
    requires !SegmentExcluded(dir, patterns) && !SegmentExcluded(file, patterns)
    ensures PathKept([dir], patterns) && PathKept([dir, file], patterns)
  {
    assert [dir, file][0] == dir && [dir, file][1] == file;
  }

  /** An excluded directory name drops the directory and any file in it. */
  lemma PairDropped(dir: string, file: string, patterns: set<string>)
    requires SegmentExcluded(dir, patterns)
    ensures !PathKept([dir], patterns) && !PathKept([dir, file], patterns)
  {
    assert [dir][0] == dir && [dir, file][0] == dir;
  }

  /** Concrete verdicts: `vendor` and anything below it is dropped, `src` and `src/bar.php` are kept. */
  lemma VendorAndSourceVerdicts()
    ensures !PathKept(["vendor"], ExcludePatterns)
    ensures !PathKept(["vendor", "foo.php"], ExcludePatterns)
    ensures PathKept(["src"], ExcludePatterns)
    ensures PathKept(["src", "bar.php"], ExcludePatterns)
  {
    VendorExcluded();
    SrcKept();
    BarPhpKept();
    PairDropped("vendor", "foo.php", ExcludePatterns);
    PairKept("src", "bar.php", ExcludePatterns);
  }

  /** A tree holding `vendor/foo.php` and `src/bar.php` archives only the `src` side. */
  lemma VendorDroppedSourceKept()
    ensures FallbackEntries({["vendor"], ["vendor", "foo.php"], ["src"], ["src", "bar.php"]}, ExcludePatterns)
         == {["src"], ["src", "bar.php"]}
  {
    VendorAndSourceVerdicts();
    FallbackKeepsExactlyKept(["vendor"], ["vendor", "foo.php"], ["src"], ["src", "bar.php"], ExcludePatterns);
  }

  /** The walk never enters `vendor`, so `vendor/foo.php` is not even offered to the filter. */
  lemma VendorNeverEntered()
    ensures var src := Node("src", [Node("bar.php", [])]);
      TarAdd([], [Node("vendor", [Node("foo.php", [])]), src], ExcludePatterns) == {["src"], ["src", "bar.php"]}
  {
    VendorAndSourceVerdicts();
    var src := Node("src", [Node("bar.php", [])]);
    var tree := [Node("vendor", [Node("foo.php", [])]), src];
    assert [] + ["vendor"] == ["vendor"] && [] + ["src"] == ["src"] && ["src"] + ["bar.php"] == ["src", "bar.php"];
    assert tree[1..] == [src] && [src][1..] == [] && src.children[1..] == [];
    assert TarAdd([], tree, ExcludePatterns) == TarAdd([], [src], ExcludePatterns);
    assert TarAdd(["src"], src.children, ExcludePatterns) == {["src", "bar.php"]};
  }

  lemma FallbackKeepsExactlyKept(a: seq<string>, b: seq<string>, c: seq<string>, d: seq<string>, patterns: set<string>)
    requires !PathKept(a, patterns) && !PathKept(b, patterns)
    requires PathKept(c, patterns) && PathKept(d, patterns)
    ensures FallbackEntries({a, b, c, d}, patterns) == {c, d}
  {
  }
}
