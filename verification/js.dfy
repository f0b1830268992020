/** The JavaScript string operations the front end relies on, with ECMAScript's meaning. */
module Js {

  /** A value that may be absent: JavaScript's `undefined`, or a library call that threw. */
  datatype Option<+T> = None | Some(value: T)

  /** ECMAScript WhiteSpace and LineTerminator code points: exactly what `String.prototype.trim`
      removes and what the regular-expression class `\s` matches. */
  predicate IsWhitespace(c: char) {
    var n := c as int;
    n == 0x09 || n == 0x0A || n == 0x0B || n == 0x0C || n == 0x0D || n == 0x20 ||
    n == 0xA0 || n == 0x1680 || (0x2000 <= n <= 0x200A) || n == 0x2028 || n == 0x2029 ||
    n == 0x202F || n == 0x205F || n == 0x3000 || n == 0xFEFF
  }

  predicate AllWhitespace(s: string) {
    forall i :: 0 <= i < |s| ==> IsWhitespace(s[i])
  }

  /** Removes the longest prefix of `s` whose characters all satisfy `p`. */
  function DropWhile(p: char -> bool, s: string): (r: string)
    ensures |r| <= |s|
  {
    if s != [] && p(s[0]) then DropWhile(p, s[1..]) else s
  }

  /** Removes the longest suffix of `s` whose characters all satisfy `p`. */
  function DropLastWhile(p: char -> bool, s: string): (r: string)
    ensures |r| <= |s|
  {
    if s != [] && p(s[|s| - 1]) then DropLastWhile(p, s[..|s| - 1]) else s
  }

  /** What `DropWhile` removes is a prefix of characters satisfying `p`, and what it keeps
      starts with one that does not. */
  lemma {:induction false} DropWhileSplits(p: char -> bool, s: string)
    ensures var r := DropWhile(p, s);
      r == s[|s| - |r|..] &&
      (forall i :: 0 <= i < |s| - |r| ==> p(s[i])) &&
      (r == [] || !p(r[0]))
    decreases |s|
  {
    if s != [] && p(s[0]) {
      DropWhileSplits(p, s[1..]);
      var r := DropWhile(p, s[1..]);
      assert s[1..][|s| - 1 - |r|..] == s[|s| - |r|..];
      forall i | 0 <= i < |s| - |r| ensures p(s[i]) {
        if i > 0 {
          assert s[i] == s[1..][i - 1];
        }
      }
    }
  }

  /** What `DropLastWhile` removes is a suffix of characters satisfying `p`, and what it keeps
      ends with one that does not. */
  lemma {:induction false} DropLastWhileSplits(p: char -> bool, s: string)
    ensures var r := DropLastWhile(p, s);
      r == s[..|r|] &&
      (forall i :: |r| <= i < |s| ==> p(s[i])) &&
      (r == [] || !p(r[|r| - 1]))
    decreases |s|
  {
    if s != [] && p(s[|s| - 1]) {
      DropLastWhileSplits(p, s[..|s| - 1]);
      var r := DropLastWhile(p, s[..|s| - 1]);
      assert s[..|s| - 1][..|r|] == s[..|r|];
      forall i | |r| <= i < |s| ensures p(s[i]) {
        if i < |s| - 1 {
          assert s[i] == s[..|s| - 1][i];
        }
      }
    }
  }

  /** `s.replace(/^\s+/, "")`: what is removed is a run of whitespace at the start, and what
      is kept starts with a character that is not whitespace. */
  function TrimStart(s: string): (r: string)
    ensures |r| <= |s| && r == s[|s| - |r|..]
    ensures AllWhitespace(s[..|s| - |r|])
    ensures r == [] || !IsWhitespace(r[0])
  {
    DropWhileSplits(IsWhitespace, s);
    DropWhile(IsWhitespace, s)
  }

  /** `s.trim()` */
  function Trim(s: string): (r: string)
    ensures r == [] || (!IsWhitespace(r[0]) && !IsWhitespace(r[|r| - 1]))
  {
    var t := TrimStart(s);
    DropWhileSplits(IsWhitespace, s);
    DropLastWhileSplits(IsWhitespace, t);
    DropLastWhile(IsWhitespace, t)
  }

  /** JavaScript's `!s.trim()`: the string is empty once trimmed, which is to say it is made
      of whitespace only. */
  predicate IsBlank(s: string)
    ensures IsBlank(s) <==> AllWhitespace(s)
  {
    TrimEmptyIffAllWhitespace(s);
    Trim(s) == ""
  }

  /** `s.slice(i, i + p.length) === p` */
  predicate OccursAt(s: string, p: string, i: int) {
    0 <= i && i + |p| <= |s| && s[i..i + |p|] == p
  }

  /** `s.includes(p)` */
  predicate Contains(s: string, p: string) {
    exists i :: 0 <= i <= |s| && OccursAt(s, p, i)
  }

  /** `s.startsWith(p)` */
  predicate StartsWith(s: string, p: string) {
    |p| <= |s| && s[..|p|] == p
  }

  /** `a || b` on two strings: the empty string is falsy. */
  function OrElse(a: string, b: string): string {
    if a != "" then a else b
  }

  /** `s || undefined` */
  function OrUndefined(s: string): Option<string> {
    if s != "" then Some(s) else None
  }

  /** A string trims to "" exactly when every character in it is whitespace. */
  lemma TrimEmptyIffAllWhitespace(s: string)
    ensures Trim(s) == "" <==> AllWhitespace(s)
  {
    var t := TrimStart(s);
    DropWhileSplits(IsWhitespace, s);
    DropLastWhileSplits(IsWhitespace, t);
    if AllWhitespace(s) {
      DropWhileAll(IsWhitespace, s);
    }
    if Trim(s) == "" {
      assert t == [];
      forall i | 0 <= i < |s| ensures IsWhitespace(s[i]) {
        assert i < |s| - |t|;
      }
    }
  }

  /** When every character satisfies `p`, nothing is left. */
  lemma {:induction false} DropWhileAll(p: char -> bool, s: string)
    requires forall i :: 0 <= i < |s| ==> p(s[i])
    ensures DropWhile(p, s) == []
    decreases |s|
  {
    if s != [] {
      assert p(s[0]);
      DropWhileAll(p, s[1..]);
    }
  }

  /** A prefix whose characters all satisfy `p` makes no difference to `DropWhile`. */
  lemma {:induction false} DropWhileSkipsPrefix(p: char -> bool, w: string, t: string)
    requires forall i :: 0 <= i < |w| ==> p(w[i])
    ensures DropWhile(p, w + t) == DropWhile(p, t)
    decreases |w|
  {
    if w == [] {
      assert w + t == t;
    } else {
      assert p((w + t)[0]);
      assert (w + t)[1..] == w[1..] + t;
      DropWhileSkipsPrefix(p, w[1..], t);
    }
  }

  /** Leading whitespace is irrelevant to `TrimStart`. */
  lemma TrimStartSkipsWhitespace(w: string, t: string)
    requires AllWhitespace(w)
    ensures TrimStart(w + t) == TrimStart(t)
  {
    DropWhileSkipsPrefix(IsWhitespace, w, t);
  }

  /** `trim` leaves a string without surrounding whitespace as it is, so it is idempotent. */
  lemma TrimOfTrimmed(s: string)
    requires s == [] || (!IsWhitespace(s[0]) && !IsWhitespace(s[|s| - 1]))
    ensures Trim(s) == s
  {
  }

  lemma TrimIdempotent(s: string)
    ensures Trim(Trim(s)) == Trim(s)
  {
    TrimOfTrimmed(Trim(s));
  }

  /** `trim` only removes whitespace from the two ends: `s` is whitespace, then `Trim(s)`,
      then whitespace. */
  lemma TrimSplits(s: string) returns (i: nat, j: nat)
    ensures i <= j <= |s| && Trim(s) == s[i..j]
    ensures AllWhitespace(s[..i]) && AllWhitespace(s[j..])
  {
    var t := TrimStart(s);
    DropWhileSplits(IsWhitespace, s);
    DropLastWhileSplits(IsWhitespace, t);
    i := |s| - |t|;
    j := i + |Trim(s)|;
    assert t == s[i..];
    assert Trim(s) == t[..|Trim(s)|];
    assert s[j..] == t[|Trim(s)|..];
  }

  /** An occurrence in a suffix is an occurrence in the whole string, shifted. */
  lemma OccursAtShift(s: string, p: string, n: int, i: int)
    requires 0 <= n <= |s| && 0 <= i
    ensures OccursAt(s[n..], p, i) <==> OccursAt(s, p, i + n)
  {
    if i + |p| <= |s| - n {
      assert s[n..][i..i + |p|] == s[i + n..i + n + |p|];
    }
  }
}
