/**
 * The JavaScript string behaviour that the account controller and the upload
 * filter rely on: `undefined` and truthiness of request fields, `trim` as the
 * request sanitizer performs it, `split('@')[0]`, unanchored regular
 * expression alternatives, `toLowerCase` and the decimal rendering of a number.
 */
module JsStrings {

  /** A value that may be `undefined` (an absent request field, a missing account). */
  datatype Option<+T> = None | Some(value: T)

  /** JavaScript truthiness of an optional string: present and not empty. */
  predicate Truthy(o: Option<string>) {
    o.Some? && o.value != ""
  }

  /** The characters `\s` matches in a JavaScript regular expression. */
  predicate IsSpace(c: char) {
    || c == ' ' || c == '\t' || c == '\n' || c == '\U{000B}' || c == '\U{000C}' || c == '\r'
    || c == '\U{00A0}' || c == '\U{1680}' || ('\U{2000}' <= c <= '\U{200A}')
    || c == '\U{2028}' || c == '\U{2029}' || c == '\U{202F}' || c == '\U{205F}'
    || c == '\U{3000}' || c == '\U{FEFF}'
  }

  predicate NoSpace(s: string) {
    forall i :: 0 <= i < |s| ==> !IsSpace(s[i])
  }

  /** Drops trailing whitespace (the `rtrim` half of the sanitizer). */
  function TrimEnd(s: string): string {
    if s != [] && IsSpace(s[|s| - 1]) then TrimEnd(s[..|s| - 1]) else s
  }

  /** Drops leading whitespace (the `ltrim` half of the sanitizer). */
  function TrimStart(s: string): string {
    if s != [] && IsSpace(s[0]) then TrimStart(s[1..]) else s
  }

  /** The `trim()` sanitizer: whitespace removed from both ends (`TrimIsSlice` states what is kept). */
  function Trim(s: string): string {
    TrimStart(TrimEnd(s))
  }

  /** `r` is the slice of `s` starting at `k`, and everything outside it is whitespace. */
  predicate TrimmedAt(s: string, r: string, k: int) {
    && 0 <= k <= |s| - |r| && r == s[k..k + |r|]
    && (forall i :: 0 <= i < k ==> IsSpace(s[i]))
    && (forall i :: k + |r| <= i < |s| ==> IsSpace(s[i]))
  }

  lemma {:induction false} TrimEndKeepsPrefix(s: string)
    ensures TrimmedAt(s, TrimEnd(s), 0)
    ensures TrimEnd(s) == [] || !IsSpace(TrimEnd(s)[|TrimEnd(s)| - 1])
  {
    if s != [] && IsSpace(s[|s| - 1]) {
      TrimEndKeepsPrefix(s[..|s| - 1]);
    }
  }

  lemma {:induction false} TrimStartKeepsSuffix(s: string)
    ensures TrimmedAt(s, TrimStart(s), |s| - |TrimStart(s)|)
    ensures TrimStart(s) == [] || !IsSpace(TrimStart(s)[0])
  {
    if s != [] && IsSpace(s[0]) {
      TrimStartKeepsSuffix(s[1..]);
    }
  }

  /**
   * `Trim` keeps one slice of its input, cuts off only whitespace, and what
   * it keeps neither starts nor ends with whitespace.
   */
  lemma TrimIsSlice(s: string)
    ensures exists k :: TrimmedAt(s, Trim(s), k)
    ensures Trim(s) == [] || (!IsSpace(Trim(s)[0]) && !IsSpace(Trim(s)[|Trim(s)| - 1]))
  {
    var e := TrimEnd(s);
    var r := TrimStart(e);
    TrimEndKeepsPrefix(s);
    TrimStartKeepsSuffix(e);
    var k := |e| - |r|;
    assert e == s[..|e|];
    assert r == s[k..k + |r|];
    forall i | 0 <= i < k
      ensures IsSpace(s[i])
    {
      assert s[i] == e[i];
    }
    assert TrimmedAt(s, Trim(s), k);
  }

  /** Trimming a string without whitespace leaves it as it is. */
  lemma TrimNoSpace(s: string)
    requires NoSpace(s)
    ensures Trim(s) == s
  {
    if s != [] {
      assert TrimEnd(s) == s;
      assert TrimStart(s) == s;
    }
  }

  predicate IsDigit(c: char) {
    '0' <= c <= '9'
  }

  predicate AllDigits(s: string) {
    forall i :: 0 <= i < |s| ==> IsDigit(s[i])
  }

  /** `s.split(sep)[0]`: everything before the first `sep`, or all of `s` when there is none. */
  function BeforeFirst(s: string, sep: char): (r: string)
    ensures r <= s
    ensures sep !in r
    ensures |r| < |s| ==> s[|r|] == sep
  {
    if s == [] || s[0] == sep then [] else [s[0]] + BeforeFirst(s[1..], sep)
  }

  /** The part before the first separator is exactly what was joined in front of it. */
  lemma {:induction false} BeforeFirstOfJoin(a: string, sep: char, b: string)
    requires sep !in a
    ensures BeforeFirst(a + [sep] + b, sep) == a
  {
    if a != [] {
      assert (a + [sep] + b)[1..] == a[1..] + [sep] + b;
      BeforeFirstOfJoin(a[1..], sep, b);
    }
  }

  /** `w` occurs in `s` at position `i`. */
  predicate OccursAt(s: string, w: string, i: nat) {
    i + |w| <= |s| && s[i..i + |w|] == w
  }

  /** Whether `w` occurs anywhere in `s`, scanning from the left like an unanchored regular expression. */
  function Contains(s: string, w: string): bool
    decreases |s|
  {
    if |w| > |s| then false
    else if s[..|w|] == w then true
    else s != [] && Contains(s[1..], w)
  }

  /** The scan finds `w` exactly when `w` occurs at some position of `s`. */
  lemma {:induction false} ContainsIffOccurs(s: string, w: string)
    ensures Contains(s, w) <==> exists i: nat :: OccursAt(s, w, i)
    decreases |s|
  {
    if |w| > |s| {
    } else if s[..|w|] == w {
      assert OccursAt(s, w, 0);
    } else {
      var t := s[1..];
      ContainsIffOccurs(t, w);
      if Contains(t, w) {
        var i: nat :| OccursAt(t, w, i);
        assert s[i + 1..i + 1 + |w|] == t[i..i + |w|];
        assert OccursAt(s, w, i + 1);
      } else {
        forall i: nat | OccursAt(s, w, i)
          ensures i > 0 && OccursAt(t, w, i - 1)
        {
          if i > 0 {
            assert t[i - 1..i - 1 + |w|] == s[i..i + |w|];
          }
        }
      }
    }
  }

  function LowerChar(c: char): char {
    if 'A' <= c <= 'Z' then (c as int - 'A' as int + 'a' as int) as char else c
  }

  /** `toLowerCase()` on ASCII letters; every other character is kept. */
  function Lower(s: string): string {
    seq(|s|, i requires 0 <= i < |s| => LowerChar(s[i]))
  }

  function DigitChar(d: nat): char
    requires d < 10
  {
    ('0' as int + d) as char
  }

  /** How JavaScript renders a non-negative integer in a template literal. */
  function Decimal(n: nat): (r: string)
    ensures r != [] && AllDigits(r)
  {
    if n < 10 then [DigitChar(n)] else Decimal(n / 10) + [DigitChar(n % 10)]
  }

  /** The number a string of decimal digits denotes. */
  function DecimalValue(s: string): nat
    requires AllDigits(s)
  {
    if s == [] then 0 else 10 * DecimalValue(s[..|s| - 1]) + (s[|s| - 1] as int - '0' as int)
  }

  /** Rendering a number and reading it back gives the number. */
  lemma {:induction false} DecimalRoundTrip(n: nat)
    ensures DecimalValue(Decimal(n)) == n
  {
    if n >= 10 {
      var s := Decimal(n);
      assert s[..|s| - 1] == Decimal(n / 10);
      DecimalRoundTrip(n / 10);
    }
  }
}
