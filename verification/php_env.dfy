/**
 * The PHP helpers the cache configuration files call: CakePHP's `env()`
 * lookup with a default, and `filter_var($v, FILTER_VALIDATE_BOOLEAN)`.
 * The process environment is a map from variable name to value.
 */
module PhpEnv {
  import opened Wrappers
  import opened Text

  type Env = map<string, string>

  /** `env($key, $default)`: the variable's value when it is set (even to ""), else the default. */
  function EnvOr(env: Env, key: string, default: string): (v: string)
    ensures key in env ==> v == env[key]
    ensures key !in env ==> v == default
  {
    if key in env then env[key] else default
  }

  /** `env($key)` without a default: PHP `null` when unset. */
  function EnvOpt(env: Env, key: string): (v: Option<string>)
    ensures v.Some? <==> key in env
    ensures v.Some? ==> v.value == env[key]
  {
    if key in env then Some(env[key]) else None
  }

  /**
   * `(int) env($key, $default)`. PHP's string-to-int cast is the parameter
   * `cast`; an integer default passes through the cast unchanged.
   */
  function EnvInt(env: Env, key: string, default: int, cast: string -> int): (v: int)
    ensures key !in env ==> v == default
    ensures key in env ==> v == cast(env[key])
  {
    if key in env then cast(env[key]) else default
  }

  /** The characters `FILTER_VALIDATE_BOOLEAN` trims from both ends. */
  predicate IsFilterSpace(c: char) {
    c == ' ' || c == '\t' || c == '\n' || c == '\r' || c == '\U{B}'
  }

  predicate AllFilterSpace(s: string) {
    forall i :: 0 <= i < |s| ==> IsFilterSpace(s[i])
  }

  function FilterTrimLeft(s: string): (r: string)
    ensures |r| <= |s| && r == s[|s| - |r|..]
    ensures forall i :: 0 <= i < |s| - |r| ==> IsFilterSpace(s[i])
    ensures r == [] || !IsFilterSpace(r[0])
  {
    if s == [] || !IsFilterSpace(s[0]) then s else FilterTrimLeft(s[1..])
  }

  function FilterTrimRight(s: string): (r: string)
    ensures |r| <= |s| && r == s[..|r|]
    ensures forall i :: |r| <= i < |s| ==> IsFilterSpace(s[i])
    ensures r == [] || !IsFilterSpace(r[|r| - 1])
  {
    if s == [] || !IsFilterSpace(s[|s| - 1]) then s else FilterTrimRight(s[..|s| - 1])
  }

  function FilterTrim(s: string): string {
    FilterTrimRight(FilterTrimLeft(s))
  }

  /** The strings `FILTER_VALIDATE_BOOLEAN` reads as true, once trimmed and lower-cased. */
  const TrueWords: set<string> := {"1", "true", "on", "yes"}

  /**
   * `filter_var($s, FILTER_VALIDATE_BOOLEAN)` without `FILTER_NULL_ON_FAILURE`:
   * true for the true words in any case and with surrounding blanks, false for
   * everything else (the false words and unrecognised text alike).
   */
  function FilterBool(s: string): bool {
    Lower(FilterTrim(s)) in TrueWords
  }

  /** `filter_var(env($key, $default), FILTER_VALIDATE_BOOLEAN)`; a boolean default is returned as it is. */
  function EnvBool(env: Env, key: string, default: bool): (b: bool)
    ensures key !in env ==> b == default
    ensures key in env ==> b == FilterBool(env[key])
  {
    if key in env then FilterBool(env[key]) else default
  }

  /** `filter_var(env($key, $default), FILTER_VALIDATE_BOOLEAN)` with a string default, which is filtered too. */
  function EnvFlag(env: Env, key: string, default: string): (b: bool)
    ensures key !in env ==> b == FilterBool(default)
    ensures key in env ==> b == FilterBool(env[key])
  {
    FilterBool(EnvOr(env, key, default))
  }

  lemma {:induction false} TrimLeftPadding(l: string, w: string, r: string)
    requires AllFilterSpace(l)
    requires w != [] && !IsFilterSpace(w[0])
    ensures FilterTrimLeft(l + w + r) == w + r
    decreases |l|
  {
    if l == [] {
      assert l + w + r == w + r;
    } else {
      assert (l + w + r)[1..] == l[1..] + w + r;
      TrimLeftPadding(l[1..], w, r);
    }
  }

  lemma {:induction false} TrimRightPadding(w: string, r: string)
    requires AllFilterSpace(r)
    requires w == [] || !IsFilterSpace(w[|w| - 1])
    ensures FilterTrimRight(w + r) == w
    decreases |r|
  {
    if r == [] {
      assert w + r == w;
    } else {
      assert (w + r)[..|w + r| - 1] == w + r[..|r| - 1];
      TrimRightPadding(w, r[..|r| - 1]);
    }
  }

  /** Blanks around a word do not change how it is read. */
  lemma FilterBoolIgnoresPadding(l: string, w: string, r: string)
    requires AllFilterSpace(l) && AllFilterSpace(r)
    requires w != [] && !IsFilterSpace(w[0]) && !IsFilterSpace(w[|w| - 1])
    ensures FilterTrim(l + w + r) == w
    ensures FilterBool(l + w + r) <==> Lower(w) in TrueWords
  {
    TrimLeftPadding(l, w, r);
    TrimRightPadding(w, r);
  }

  lemma {:induction false} LowerInit(s: string)
    requires s != []
    ensures Lower(s) == Lower(s[..|s| - 1]) + [LowerChar(s[|s| - 1])]
    decreases |s|
  {
    if |s| > 1 {
      LowerInit(s[1..]);
      assert s[1..][..|s| - 2] == s[..|s| - 1][1..];
    }
  }

  lemma LowerKeepsSpace(c: char)
    ensures IsFilterSpace(LowerChar(c)) == IsFilterSpace(c)
  {
  }

  lemma {:induction false} TrimLeftLower(s: string)
    ensures FilterTrimLeft(Lower(s)) == Lower(FilterTrimLeft(s))
    decreases |s|
  {
    if s != [] {
      var t := Lower(s);
      assert t[0] == LowerChar(s[0]) && t[1..] == Lower(s[1..]);
      LowerKeepsSpace(s[0]);
      TrimLeftLower(s[1..]);
    }
  }

  lemma {:induction false} TrimRightLower(s: string)
    ensures FilterTrimRight(Lower(s)) == Lower(FilterTrimRight(s))
    decreases |s|
  {
    if s != [] {
      LowerInit(s);
      LowerKeepsSpace(s[|s| - 1]);
      assert Lower(s)[..|s| - 1] == Lower(s[..|s| - 1]);
      TrimRightLower(s[..|s| - 1]);
    }
  }

  lemma {:induction false} LowerIdempotent(s: string)
    ensures Lower(Lower(s)) == Lower(s)
    decreases |s|
  {
    if s != [] {
      LowerIdempotent(s[1..]);
      assert Lower(s)[1..] == Lower(s[1..]);
    }
  }

  /** The reading ignores letter case. */
  lemma FilterBoolIgnoresCase(s: string)
    ensures FilterBool(Lower(s)) == FilterBool(s)
  {
    TrimLeftLower(s);
    TrimRightLower(FilterTrimLeft(s));
    LowerIdempotent(FilterTrim(s));
  }

  lemma UpperTrueIsTrue()
    ensures FilterBool("TRUE")
  {
    FilterBoolIgnoresCase("TRUE");
    assert Lower("TRUE") == "true";
  }

  lemma PaddedYesIsTrue()
    ensures FilterBool(" " + "yes" + "\n")
  {
    FilterBoolIgnoresPadding(" ", "yes", "\n");
    assert Lower("yes") == "yes";
  }

  lemma FalseIsFalse()
    ensures !FilterBool("false")
  {
    assert FilterTrim("false") == "false" by {
      FilterBoolIgnoresPadding([], "false", []);
      assert [] + "false" + [] == "false";
    }
  }

  lemma EmptyIsFalse()
    ensures !FilterBool("")
  {
  }
}
