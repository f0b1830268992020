/** `sanitizeForFilename`: the base name of the two key files written by key generation. */
module Filename {
  import opened Js

  /** `.slice(0, 64)` */
  const MAX_LENGTH := 64
  /** What a blank identity becomes. */
  const FALLBACK := "key"

  /** The class `[a-z0-9._-]`. */
  predicate IsAllowed(c: char) {
    ('a' <= c <= 'z') || ('0' <= c <= '9') || c == '.' || c == '_' || c == '-'
  }

  /** An allowed character other than the hyphen: no step of the sanitiser creates or
      removes one, it can only cut them off at the 64th position. */
  predicate IsSignificant(c: char) {
    IsAllowed(c) && c != '-'
  }

  predicate IsDisallowed(c: char) {
    !IsAllowed(c)
  }

  predicate IsHyphen(c: char) {
    c == '-'
  }

  predicate AllAllowed(s: string) {
    forall i :: 0 <= i < |s| ==> IsAllowed(s[i])
  }

  /** `toLowerCase` on one character, for ASCII letters only. */
  function LowerChar(c: char): (d: char)
    ensures !('A' <= d <= 'Z')
    ensures 'A' <= c <= 'Z' ==> 'a' <= d <= 'z' && d as int - 'a' as int == c as int - 'A' as int
    ensures !('A' <= c <= 'Z') ==> d == c
    ensures IsLowerOf(c, d)
    ensures IsAllowed(c) || IsWhitespace(c) ==> d == c
  {
    if 'A' <= c <= 'Z' then (c as int + 32) as char else c
  }

  /** `d` is `c` lower-cased on ASCII: a capital's own small letter, any other character itself. */
  predicate IsLowerOf(c: char, d: char) {
    if 'A' <= c <= 'Z' then 'a' <= d <= 'z' && d as int - 'a' as int == c as int - 'A' as int
    else d == c
  }

  /** `toLowerCase`, for ASCII letters only: each capital becomes its own small letter and every
      other character stays. */
  function ToLowerAscii(s: string): (r: string)
    ensures |r| == |s|
    ensures forall i :: 0 <= i < |s| ==> IsLowerOf(s[i], r[i])
  {
    seq(|s|, i requires 0 <= i < |s| => LowerChar(s[i]))
  }

  /** The significant characters of `s`, in order. */
  function Significant(s: string): string {
    if s == [] then [] else (if IsSignificant(s[0]) then [s[0]] else []) + Significant(s[1..])
  }

  function SkipDisallowed(s: string): string {
    DropWhile(IsDisallowed, s)
  }

  /** `.replace(/[^a-z0-9._-]+/g, "-")`: every maximal run of characters outside the class
      becomes one hyphen. */
  function CollapseDisallowed(s: string): (r: string)
    ensures AllAllowed(r)
    ensures |r| <= |s|
    decreases |s|
  {
    if s == [] then []
    else if IsAllowed(s[0]) then [s[0]] + CollapseDisallowed(s[1..])
    else "-" + CollapseDisallowed(SkipDisallowed(s[1..]))
  }

  /** `.replace(/^-+|-+$/g, "")`: never longer, and a text without a hyphen at either end is
      left as it is. */
  function StripHyphens(s: string): (r: string)
    ensures |r| <= |s|
    ensures s == [] || (s[0] != '-' && s[|s| - 1] != '-') ==> r == s
  {
    DropLastWhile(IsHyphen, DropWhile(IsHyphen, s))
  }

  /** `.slice(0, 64)`: the first 64 characters, or all of them when there are fewer. */
  function Truncate(s: string): (r: string)
    ensures |r| == if |s| <= MAX_LENGTH then |s| else MAX_LENGTH
    ensures r == s[..|r|]
  {
    if |s| <= MAX_LENGTH then s else s[..MAX_LENGTH]
  }

  /** The sanitised name before it is cut to 64 characters. */
  function Untruncated(value: string): string {
    StripHyphens(CollapseDisallowed(ToLowerAscii(Trim(value))))
  }

  /** `sanitizeForFilename(value)`. The blank test comes before any substitution, so a
      non-blank value with nothing significant in it yields "" rather than "key". */
  function Sanitize(value: string): (r: string)
    ensures |r| <= MAX_LENGTH
    ensures AllAllowed(r)
    ensures r == [] || r[0] != '-'
    ensures AllWhitespace(value) ==> r == FALLBACK
    ensures r != [] && r[|r| - 1] == '-' ==> |Untruncated(value)| > MAX_LENGTH
  {
    TrimEmptyIffAllWhitespace(value);
    if Trim(value) == "" then FALLBACK
    else
      var collapsed := CollapseDisallowed(ToLowerAscii(Trim(value)));
      StripEnds(collapsed);
      StripKeepsAllowed(collapsed);
      Truncate(Untruncated(value))
  }

  // ---------------------------------------------------------------------------------------
  // What the significant characters tell

  lemma {:induction false} SignificantAppend(a: string, b: string)
    ensures Significant(a + b) == Significant(a) + Significant(b)
    decreases |a|
  {
    if a == [] {
      assert a + b == b;
    } else {
      assert (a + b)[0] == a[0] && (a + b)[1..] == a[1..] + b;
      SignificantAppend(a[1..], b);
      var head := if IsSignificant(a[0]) then [a[0]] else [];
      assert Significant(a + b) == head + Significant(a[1..] + b);
      assert Significant(a) == head + Significant(a[1..]);
    }
  }

  lemma {:induction false} SignificantEmpty(s: string)
    ensures Significant(s) == [] <==> forall i :: 0 <= i < |s| ==> !IsSignificant(s[i])
    decreases |s|
  {
    if s != [] {
      SignificantEmpty(s[1..]);
      assert forall i :: 1 <= i < |s| ==> s[i] == s[1..][i - 1];
    }
  }

  lemma LowerAppend(a: string, b: string)
    ensures ToLowerAscii(a + b) == ToLowerAscii(a) + ToLowerAscii(b)
  {
  }

  /** Runs of disallowed characters hold nothing significant, so collapsing keeps every
      significant character, in order. */
  lemma {:induction false} CollapseKeepsSignificant(s: string)
    ensures Significant(CollapseDisallowed(s)) == Significant(s)
    decreases |s|
  {
    if s != [] {
      assert s == [s[0]] + s[1..];
      SignificantAppend([s[0]], s[1..]);
      if IsAllowed(s[0]) {
        CollapseKeepsSignificant(s[1..]);
        SignificantAppend([s[0]], CollapseDisallowed(s[1..]));
      } else {
        var tail := s[1..];
        var rest := SkipDisallowed(tail);
        DropWhileSplits(IsDisallowed, tail);
        var k := |tail| - |rest|;
        assert tail == tail[..k] + rest;
        SignificantAppend(tail[..k], rest);
        SignificantEmpty(tail[..k]);
        CollapseKeepsSignificant(rest);
        SignificantAppend("-", CollapseDisallowed(rest));
      }
    }
  }

  /** Stripping removes hyphens from the two ends only: `s` is hyphens, then
      `StripHyphens(s)`, then hyphens. */
  lemma StripSplits(s: string) returns (i: nat, j: nat)
    ensures i <= j <= |s| && StripHyphens(s) == s[i..j]
    ensures forall k :: 0 <= k < i ==> s[k] == '-'
    ensures forall k :: j <= k < |s| ==> s[k] == '-'
  {
    var t := DropWhile(IsHyphen, s);
    DropWhileSplits(IsHyphen, s);
    DropLastWhileSplits(IsHyphen, t);
    i := |s| - |t|;
    j := i + |StripHyphens(s)|;
    assert t == s[i..];
    assert StripHyphens(s) == t[..j - i];
    forall k | j <= k < |s| ensures s[k] == '-' {
      assert s[k] == t[k - i];
    }
  }

  lemma StripEnds(s: string)
    ensures var r := StripHyphens(s); r == [] || (r[0] != '-' && r[|r| - 1] != '-')
  {
    var t := DropWhile(IsHyphen, s);
    DropWhileSplits(IsHyphen, s);
    DropLastWhileSplits(IsHyphen, t);
  }

  lemma StripKeepsAllowed(s: string)
    requires AllAllowed(s)
    ensures AllAllowed(StripHyphens(s))
  {
    var i, j := StripSplits(s);
    assert forall k :: 0 <= k < j - i ==> StripHyphens(s)[k] == s[i + k];
  }

  /** Stripping removes hyphens only. */
  lemma StripKeepsSignificant(s: string)
    ensures Significant(StripHyphens(s)) == Significant(s)
  {
    var i, j := StripSplits(s);
    assert s == s[..i] + s[i..j] + s[j..];
    SignificantEmpty(s[..i]);
    SignificantEmpty(s[j..]);
    SignificantAppend(s[..i] + s[i..j], s[j..]);
    SignificantAppend(s[..i], s[i..j]);
  }

  /** Whitespace is never significant, even lower-cased. */
  lemma WhitespaceInsignificant(w: string)
    requires AllWhitespace(w)
    ensures Significant(ToLowerAscii(w)) == []
  {
    SignificantEmpty(ToLowerAscii(w));
  }

  /** Trimming does not change the significant characters of the lower-cased value. */
  lemma TrimKeepsSignificant(value: string)
    ensures Significant(ToLowerAscii(Trim(value))) == Significant(ToLowerAscii(value))
  {
    var i, j := TrimSplits(value);
    assert value == value[..i] + value[i..j] + value[j..];
    LowerAppend(value[..i] + value[i..j], value[j..]);
    LowerAppend(value[..i], value[i..j]);
    WhitespaceInsignificant(value[..i]);
    WhitespaceInsignificant(value[j..]);
    SignificantAppend(ToLowerAscii(value[..i]) + ToLowerAscii(value[i..j]), ToLowerAscii(value[j..]));
    SignificantAppend(ToLowerAscii(value[..i]), ToLowerAscii(value[i..j]));
  }

  lemma UntruncatedKeepsSignificant(value: string)
    ensures Significant(Untruncated(value)) == Significant(ToLowerAscii(value))
  {
    StripKeepsSignificant(CollapseDisallowed(ToLowerAscii(Trim(value))));
    CollapseKeepsSignificant(ToLowerAscii(Trim(value)));
    TrimKeepsSignificant(value);
  }

  /** A string of allowed characters that strips to nothing has nothing significant, and
      the converse. */
  lemma StripEmptyIff(s: string)
    requires AllAllowed(s)
    ensures StripHyphens(s) == [] <==> Significant(s) == []
  {
    StripKeepsSignificant(s);
    SignificantEmpty(s);
    if Significant(s) == [] {
      assert forall i :: 0 <= i < |s| ==> s[i] == '-';
      DropWhileAll(IsHyphen, s);
    }
  }

  // ---------------------------------------------------------------------------------------
  // The promised properties

  /** The result is "" exactly when the value is not blank but has no letter, digit, dot or
      underscore: "!!!" and "--" become "", not "key". */
  lemma SanitizeEmptyIff(value: string)
    ensures Sanitize(value) == "" <==>
      !AllWhitespace(value) && forall i :: 0 <= i < |value| ==> !IsSignificant(LowerChar(value[i]))
  {
    var x := CollapseDisallowed(ToLowerAscii(Trim(value)));
    assert Sanitize(value) == "" <==> Trim(value) != "" && Untruncated(value) == "";
    assert Untruncated(value) == "" <==> Significant(ToLowerAscii(value)) == [] by {
      StripEmptyIff(x);
      CollapseKeepsSignificant(ToLowerAscii(Trim(value)));
      TrimKeepsSignificant(value);
    }
    TrimEmptyIffAllWhitespace(value);
    LowerInsignificant(value);
  }

  lemma LowerInsignificant(value: string)
    ensures Significant(ToLowerAscii(value)) == [] <==>
      forall i :: 0 <= i < |value| ==> !IsSignificant(LowerChar(value[i]))
  {
    var lower := ToLowerAscii(value);
    SignificantEmpty(lower);
    if forall i :: 0 <= i < |value| ==> !IsSignificant(LowerChar(value[i])) {
      forall i | 0 <= i < |lower| ensures !IsSignificant(lower[i]) {
        assert lower[i] == LowerChar(value[i]);
      }
    }
    if Significant(lower) == [] {
      forall i | 0 <= i < |value| ensures !IsSignificant(LowerChar(value[i])) {
        assert lower[i] == LowerChar(value[i]);
      }
    }
  }

  /** Nothing significant is lost unless the 64-character cut falls inside the name; when it
      does, what is kept is a prefix of it. */
  lemma SanitizeKeepsSignificant(value: string)
    requires !AllWhitespace(value)
    ensures |Untruncated(value)| <= MAX_LENGTH ==>
      Significant(Sanitize(value)) == Significant(ToLowerAscii(value))
    ensures exists rest :: Significant(Sanitize(value)) + rest == Significant(ToLowerAscii(value))
  {
    TrimEmptyIffAllWhitespace(value);
    UntruncatedKeepsSignificant(value);
    var u := Untruncated(value);
    var r := Sanitize(value);
    assert u == r + u[|r|..];
    SignificantAppend(r, u[|r|..]);
  }

  /** An already clean name is its own sanitised form. */
  predicate IsCleanName(s: string) {
    0 < |s| <= MAX_LENGTH && AllAllowed(s) && s[0] != '-' && s[|s| - 1] != '-'
  }

  lemma {:induction false} CollapseOfAllowed(s: string)
    requires AllAllowed(s)
    ensures CollapseDisallowed(s) == s
    decreases |s|
  {
    if s != [] {
      CollapseOfAllowed(s[1..]);
    }
  }

  /** For lower-case allowed text the sanitiser only strips hyphens and cuts. */
  lemma SanitizeOfAllowed(s: string)
    requires s != [] && AllAllowed(s)
    ensures Sanitize(s) == Truncate(StripHyphens(s))
  {
    TrimOfTrimmed(s);
    assert ToLowerAscii(s) == s;
    CollapseOfAllowed(s);
  }

  lemma SanitizeOfClean(s: string)
    requires IsCleanName(s)
    ensures Sanitize(s) == s
  {
    SanitizeOfAllowed(s);
    assert DropWhile(IsHyphen, s) == s;
    assert DropLastWhile(IsHyphen, s) == s;
  }

  /** Sanitising twice changes nothing, except when the first result is "" (which becomes
      "key") or ends in a hyphen left by the cut (which is then stripped). */
  lemma SanitizeIdempotent(value: string)
    requires Sanitize(value) != ""
    requires Sanitize(value)[|Sanitize(value)| - 1] != '-'
    ensures Sanitize(Sanitize(value)) == Sanitize(value)
  {
    SanitizeOfClean(Sanitize(value));
  }

  lemma SanitizeNotIdempotentOnSymbols(bangs: string)
    requires bangs == "!!!"
    ensures Sanitize(bangs) == ""
    ensures Sanitize(Sanitize(bangs)) == FALLBACK
  {
    assert !IsWhitespace(bangs[0]);
    assert forall i :: 0 <= i < |bangs| ==> bangs[i] == '!';
    SanitizeEmptyIff(bangs);
    assert AllWhitespace("");
  }

  /** "Jane Doe!!" becomes "jane-doe". */
  lemma SanitizeJaneDoe(name: string)
    requires name == "Jane Doe!!"
    ensures Sanitize(name) == "jane-doe"
  {
    TrimOfTrimmed(name);
    var lower := ToLowerAscii(name);
    LowerJaneDoe(name);
    CollapseJaneDoe(lower);
    StripJaneDoe(CollapseDisallowed(lower));
  }

  lemma LowerJaneDoe(name: string)
    requires name == "Jane Doe!!"
    ensures ToLowerAscii(name) == "jane doe!!"
  {
  }

  lemma StripJaneDoe(collapsed: string)
    requires collapsed == "jane-doe-"
    ensures StripHyphens(collapsed) == "jane-doe"
  {
    assert DropWhile(IsHyphen, collapsed) == collapsed;
    var kept := collapsed[..8];
    assert kept == "jane-doe";
    assert DropLastWhile(IsHyphen, kept) == kept;
    assert DropLastWhile(IsHyphen, collapsed) == DropLastWhile(IsHyphen, kept);
  }

  lemma CollapseJaneDoe(s: string)
    requires s == "jane doe!!"
    ensures CollapseDisallowed(s) == "jane-doe-"
  {
    var first, gap, last, bangs := "jane", " ", "doe", "!!";
    assert s == first + (gap + (last + bangs));
    CollapseRun(bangs, []);
    assert bangs + [] == bangs;
    CollapseAllowed(last, bangs);
    CollapseRun(gap, last + bangs);
    CollapseAllowed(first, gap + (last + bangs));
  }

  /** A run of disallowed characters followed by an allowed one (or by nothing) becomes one
      hyphen. */
  lemma CollapseRun(w: string, s: string)
    requires w != [] && forall i :: 0 <= i < |w| ==> IsDisallowed(w[i])
    requires s == [] || IsAllowed(s[0])
    ensures CollapseDisallowed(w + s) == "-" + CollapseDisallowed(s)
  {
    var ws := w + s;
    assert ws[0] == w[0] && !IsAllowed(ws[0]);
    assert ws[1..] == w[1..] + s;
    assert SkipDisallowed(ws[1..]) == s by {
      DropWhileSkipsPrefix(IsDisallowed, w[1..], s);
      assert DropWhile(IsDisallowed, s) == s;
    }
    assert CollapseDisallowed(ws) == "-" + CollapseDisallowed(SkipDisallowed(ws[1..]));
  }

  lemma {:induction false} CollapseAllowed(a: string, s: string)
    requires AllAllowed(a)
    ensures CollapseDisallowed(a + s) == a + CollapseDisallowed(s)
    decreases |a|
  {
    if a == [] {
      assert a + s == s;
    } else {
      assert (a + s)[1..] == a[1..] + s;
      CollapseAllowed(a[1..], s);
      assert a == [a[0]] + a[1..];
    }
  }

  /** The cut can leave a trailing hyphen: 63 letters, a hyphen and one more letter. */
  lemma SanitizeCutLeavesHyphen(name: string)
    requires name == seq(63, _ => 'a') + "-b"
    ensures Sanitize(name) == seq(63, _ => 'a') + "-"
  {
    var letters := seq(63, _ => 'a');
    assert forall i :: 0 <= i < 63 ==> name[i] == 'a';
    assert name[63] == '-' && name[64] == 'b';
    assert AllAllowed(name);
    SanitizeOfAllowed(name);
    assert StripHyphens(name) == name;
    assert name[..MAX_LENGTH] == letters + "-";
  }
}
