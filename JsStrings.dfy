/**
 * The few JavaScript string semantics the catalogue relies on: field values that may be
 * `undefined` or `null`, truthiness, `String(x)`, `toLowerCase`, `includes`, the `\s`
 * character class, and the default order used by `Array.prototype.sort`.
 */
module JsStrings {

  /** A record field that the JSON payload may omit (`undefined`), set to `null`, or set to a string. */
  datatype JsStr = Undefined | Null | Str(s: string)

  /** JavaScript truthiness of a field value: only a non-empty string is truthy. */
  predicate Truthy(v: JsStr) {
    v.Str? && v.s != ""
  }

  /** `String(v)`: the string a value coerces to. */
  function ToJsString(v: JsStr): (r: string)
    ensures v.Str? ==> r == v.s
    ensures v == Undefined ==> r == "undefined"
    ensures v == Null ==> r == "null"
  {
    match v
    case Undefined => "undefined"
    case Null => "null"
    case Str(s) => s
  }

  // ---------------------------------------------------------------------------------
  // toLowerCase (ASCII letters only)

  function LowerChar(c: char): (d: char)
    ensures 'A' <= c <= 'Z' ==> d as int == c as int + 32
    ensures !('A' <= c <= 'Z') ==> d == c
    ensures !('A' <= d <= 'Z')
  {
    if 'A' <= c <= 'Z' then (c as int + 32) as char else c
  }

  /** `s.toLowerCase()`, restricted to the ASCII letters. */
  function Lower(s: string): (r: string)
    ensures |r| == |s|
    ensures forall i :: 0 <= i < |s| ==> r[i] == LowerChar(s[i])
  {
    if s == [] then [] else [LowerChar(s[0])] + Lower(s[1..])
  }

  /** A string whose characters are those of `s` lowercased one by one is `Lower(s)`. */
  lemma LowerPointwise(s: string, t: string)
    requires |s| == |t| && forall i | 0 <= i < |s| :: LowerChar(s[i]) == t[i]
    ensures Lower(s) == t
  {
  }

  /** Lowercasing twice is lowercasing once. */
  lemma LowerIdempotent(s: string)
    ensures Lower(Lower(s)) == Lower(s)
  {
  }

  // ---------------------------------------------------------------------------------
  // includes

  /** `s.includes(t)`: `t` occurs in `s` at some position (the empty string occurs everywhere). */
  predicate Includes(s: string, t: string) {
    t <= s || (s != [] && Includes(s[1..], t))
  }

  /** `t` occurs in `s` starting at index `i`. */
  ghost predicate OccursAt(s: string, t: string, i: int) {
    0 <= i <= |s| - |t| && s[i..i + |t|] == t
  }

  /** `Includes` holds exactly when `t` occurs somewhere in `s`. */
  lemma {:induction false} IncludesIffOccurs(s: string, t: string)
    ensures Includes(s, t) <==> exists i :: OccursAt(s, t, i)
  {
    OccursAtStart(s, t);
    if t <= s {
      assert OccursAt(s, t, 0);
    } else if s != [] {
      IncludesIffOccurs(s[1..], t);
      if i :| OccursAt(s, t, i) {
        OccursAtShift(s, t, i);
      }
      if j :| OccursAt(s[1..], t, j) {
        OccursAtShift(s, t, j + 1);
      }
    } else {
      assert forall i :: !OccursAt(s, t, i);
    }
  }

  lemma OccursAtStart(s: string, t: string)
    ensures OccursAt(s, t, 0) <==> t <= s
  {
  }

  lemma OccursAtShift(s: string, t: string, i: int)
    requires s != [] && i >= 1
    ensures OccursAt(s, t, i) <==> OccursAt(s[1..], t, i - 1)
  {
    if 0 <= i <= |s| - |t| {
      assert s[1..][i - 1..i - 1 + |t|] == s[i..i + |t|];
    }
  }

  // ---------------------------------------------------------------------------------
  // The `\s` character class of JavaScript regular expressions

  /** WhiteSpace and LineTerminator code points, as matched by `\s`. */
  predicate IsJsWhiteSpace(c: char) {
    || c == '\t' || c == '\n' || c == '\U{B}' || c == '\U{C}' || c == '\r' || c == ' '
    || c == '\U{A0}' || c == '\U{1680}' || ('\U{2000}' <= c <= '\U{200A}')
    || c == '\U{2028}' || c == '\U{2029}' || c == '\U{202F}' || c == '\U{205F}'
    || c == '\U{3000}' || c == '\U{FEFF}'
  }

  // ---------------------------------------------------------------------------------
  // Default sort order: UTF-16 code units

  /**
   * A rank per character whose numeric order is the order of the characters' UTF-16
   * encodings: a supplementary character starts with a high surrogate (U+D800..U+DBFF),
   * so it sorts after U+0000..U+D7FF and before U+E000..U+FFFF.
   */
  function CodeUnitRank(c: char): (r: int)
    ensures c as int < 0xD800 ==> r == c as int
    ensures 0xE000 <= c as int < 0x10000 ==> r > 0x10FFFF
    ensures 0x10000 <= c as int ==> 0xD800 <= r <= 0x10FFFF
  {
    if 0xE000 <= c as int < 0x10000 then c as int + 0x110000 else c as int
  }

  lemma CodeUnitRankInjective(c: char, d: char)
    requires CodeUnitRank(c) == CodeUnitRank(d)
    ensures c == d
  {
  }

  /** `a` sorts strictly before `b` when both are compared as UTF-16 code-unit sequences. */
  predicate CodeUnitLess(a: string, b: string)
  {
    if a == [] then b != []
    else if b == [] then false
    else if a[0] != b[0] then CodeUnitRank(a[0]) < CodeUnitRank(b[0])
    else CodeUnitLess(a[1..], b[1..])
  }

  lemma {:induction false} CodeUnitLessIrreflexive(a: string)
    ensures !CodeUnitLess(a, a)
  {
    if a != [] {
      CodeUnitLessIrreflexive(a[1..]);
    }
  }

  lemma {:induction false} CodeUnitLessTransitive(a: string, b: string, c: string)
    requires CodeUnitLess(a, b) && CodeUnitLess(b, c)
    ensures CodeUnitLess(a, c)
  {
    if a != [] && b != [] && c != [] && a[0] == b[0] && b[0] == c[0] {
      CodeUnitLessTransitive(a[1..], b[1..], c[1..]);
    }
  }

  /** Any two distinct strings are ordered one way or the other. */
  lemma {:induction false} CodeUnitLessTotal(a: string, b: string)
    requires a != b
    ensures CodeUnitLess(a, b) || CodeUnitLess(b, a)
  {
    if a != [] && b != [] {
      if a[0] == b[0] {
        assert a == [a[0]] + a[1..] && b == [b[0]] + b[1..];
        CodeUnitLessTotal(a[1..], b[1..]);
      } else if CodeUnitRank(a[0]) == CodeUnitRank(b[0]) {
        CodeUnitRankInjective(a[0], b[0]);
      }
    }
  }

  lemma {:induction false} CodeUnitLessAsymmetric(a: string, b: string)
    requires CodeUnitLess(a, b)
    ensures !CodeUnitLess(b, a)
  {
    if CodeUnitLess(b, a) {
      CodeUnitLessTransitive(a, b, a);
      CodeUnitLessIrreflexive(a);
    }
  }
}
