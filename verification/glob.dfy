/**
 * Shell-style name matching as `fnmatch.fnmatch` and `Path.glob` perform it on
 * POSIX, for patterns whose only metacharacter is `*` (the only kind the build
 * script uses). Matching is case-sensitive and `*` also matches a leading dot.
 */
module Glob {
  import opened Text

  predicate NoStar(s: string) {
    forall i :: 0 <= i < |s| ==> s[i] != '*'
  }

  /** `*` matches any run of characters, including none; every other character matches itself. */
  predicate Match(name: string, pattern: string)
    decreases |name| + |pattern|
  {
    if pattern == [] then name == []
    else if pattern[0] == '*' then Match(name, pattern[1..]) || (name != [] && Match(name[1..], pattern))
    else name != [] && name[0] == pattern[0] && Match(name[1..], pattern[1..])
  }

  /** A pattern without `*` matches exactly itself. */
  lemma {:induction false} LiteralMatch(name: string, literal: string)
    requires NoStar(literal)
    ensures Match(name, literal) <==> name == literal
    decreases |literal|
  {
    if literal != [] && name != [] {
      LiteralMatch(name[1..], literal[1..]);
      if name[0] == literal[0] && name[1..] == literal[1..] {
        assert name == [name[0]] + name[1..];
        assert literal == [literal[0]] + literal[1..];
      }
    }
  }

  /** `*tail` matches exactly the names ending in `tail`. */
  lemma {:induction false} StarTailMatch(name: string, tail: string)
    requires NoStar(tail)
    ensures Match(name, "*" + tail) <==> EndsWith(name, tail)
    decreases |name|
  {
    var pattern := "*" + tail;
    assert pattern[1..] == tail;
    LiteralMatch(name, tail);
    if name != [] {
      StarTailMatch(name[1..], tail);
      if |name| > |tail| {
        assert name[1..][|name[1..]| - |tail|..] == name[|name| - |tail|..];
      }
    }
  }

  /** `head*tail` matches exactly the names that start with `head`, end with `tail`, and are long enough for both. */
  lemma {:induction false} SingleStarMatch(name: string, head: string, tail: string)
    requires NoStar(head) && NoStar(tail)
    ensures Match(name, head + "*" + tail)
        <==> |name| >= |head| + |tail| && head <= name && EndsWith(name, tail)
    decreases |head|
  {
    var pattern := head + "*" + tail;
    if head == [] {
      assert pattern == "*" + tail;
      StarTailMatch(name, tail);
    } else {
      assert pattern[0] == head[0];
      assert pattern[1..] == head[1..] + "*" + tail;
      if name != [] {
        SingleStarMatch(name[1..], head[1..], tail);
        if |name| > |tail| {
          assert name[1..][|name[1..]| - |tail|..] == name[|name| - |tail|..];
        }
        if head <= name {
          assert head[1..] <= name[1..];
        }
        if name[0] == head[0] && head[1..] <= name[1..] {
          assert head == [head[0]] + head[1..];
          assert head <= name;
        }
      }
    }
  }
}
