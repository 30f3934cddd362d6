/** Values shared by every route: optional values, HTTP replies, the way a
    JSON body field arrives, JavaScript truthiness of text, and `String.prototype.trim`. */
module Common {

  datatype Option<+T> = None | Some(value: T)

  /** An HTTP response: the status code and the JSON body. */
  datatype Reply<+B> = Reply(status: nat, body: B)

  /** A request-body field: `undefined` (Absent) or present with some value. */
  datatype Supplied<+T> = Absent | Given(value: T)

  /** A chat message sent to the upstream text-generation service. */
  datatype Message = Message(role: string, content: string)

  /** The upstream text-generation service: the reply text, or None when the call throws. */
  type Upstream = seq<Message> -> Option<string>

  /** Nullable text as JavaScript sees it: `null`/`undefined` is None; text is truthy iff non-empty. */
  predicate Truthy(s: Option<string>) {
    s.Some? && s.value != ""
  }

  /** `s || fallback` on nullable text. */
  function OrElse(s: Option<string>, fallback: string): string {
    if Truthy(s) then s.value else fallback
  }

  /** `s || null` on nullable text. */
  function OrNull(s: Option<string>): Option<string> {
    if Truthy(s) then s else None
  }

  /** The code points `String.prototype.trim` removes: the WhiteSpace of
      ECMAScript (tab, vertical tab, form feed, the byte-order mark and every
      space separator of Unicode category Zs) and its LineTerminators (line
      feed, carriage return, line and paragraph separators). */
  predicate IsSpace(c: char) {
    || c == '\t' || c == '\U{000B}' || c == '\U{000C}' || c == '\U{FEFF}'
    || IsSpaceSeparator(c)
    || c == '\n' || c == '\r' || c == '\U{2028}' || c == '\U{2029}'
  }

  /** The code points of Unicode general category Zs. */
  predicate IsSpaceSeparator(c: char) {
    || c == ' ' || c == '\U{00A0}' || c == '\U{1680}'
    || ('\U{2000}' <= c <= '\U{200A}')
    || c == '\U{202F}' || c == '\U{205F}' || c == '\U{3000}'
  }

  /** `s` without its leading whitespace. */
  function TrimStart(s: string): (r: string)
    ensures |r| <= |s|
  {
    if s != [] && IsSpace(s[0]) then TrimStart(s[1..]) else s
  }

  /** `s` without its trailing whitespace. */
  function TrimEnd(s: string): (r: string)
    ensures |r| <= |s|
  {
    if s != [] && IsSpace(s[|s| - 1]) then TrimEnd(s[..|s| - 1]) else s
  }

  /** `TrimStart` cuts exactly the leading whitespace: the result is a suffix of
      `s` that does not start with whitespace, and everything cut is whitespace. */
  lemma {:induction false} TrimStartCuts(s: string)
    ensures TrimStart(s) == s[|s| - |TrimStart(s)|..]
    ensures TrimStart(s) == [] || !IsSpace(TrimStart(s)[0])
    ensures forall i :: 0 <= i < |s| - |TrimStart(s)| ==> IsSpace(s[i])
  {
    if s != [] && IsSpace(s[0]) {
      TrimStartCuts(s[1..]);
      assert s[1..][|s| - 1 - |TrimStart(s)|..] == s[|s| - |TrimStart(s)|..];
    }
  }

  /** `TrimEnd` cuts exactly the trailing whitespace: the result is a prefix of
      `s` that does not end with whitespace, and everything cut is whitespace. */
  lemma {:induction false} TrimEndCuts(s: string)
    ensures TrimEnd(s) == s[..|TrimEnd(s)|]
    ensures TrimEnd(s) == [] || !IsSpace(TrimEnd(s)[|TrimEnd(s)| - 1])
    ensures forall i :: |TrimEnd(s)| <= i < |s| ==> IsSpace(s[i])
  {
    if s != [] && IsSpace(s[|s| - 1]) {
      TrimEndCuts(s[..|s| - 1]);
      assert s[..|s| - 1][..|TrimEnd(s)|] == s[..|TrimEnd(s)|];
    }
  }

  /** `s.trim()`: `s` without its leading and trailing whitespace. */
  function Trim(s: string): (r: string)
    ensures |r| <= |s|
  {
    TrimEnd(TrimStart(s))
  }

  /** `s.trim()` only cuts whitespace: the result is the part of `s` after its
      leading whitespace and before its trailing whitespace, and neither of
      its ends is whitespace. */
  lemma TrimCutsWhitespace(s: string)
    ensures var start := |s| - |TrimStart(s)|;
      && start + |Trim(s)| <= |s|
      && Trim(s) == s[start..start + |Trim(s)|]
      && (forall i :: 0 <= i < start ==> IsSpace(s[i]))
      && (forall i :: start + |Trim(s)| <= i < |s| ==> IsSpace(s[i]))
    ensures Trim(s) == [] || (!IsSpace(Trim(s)[0]) && !IsSpace(Trim(s)[|Trim(s)| - 1]))
  {
    var t := TrimStart(s);
    var r := TrimEnd(t);
    var start := |s| - |t|;
    TrimStartCuts(s);
    TrimEndCuts(t);
    assert t == s[start..];
    assert r == t[..|r|];
    assert r == s[start..start + |r|] by {
      forall i | 0 <= i < |r| ensures r[i] == s[start + i] {
        assert r[i] == t[i] == s[start..][i];
      }
    }
    forall i | start + |r| <= i < |s| ensures IsSpace(s[i]) {
      assert s[i] == t[i - start];
    }
    if r != [] {
      assert r[0] == t[0];
    }
  }

  /** Trimming a trimmed text changes nothing. */
  lemma TrimIdempotent(s: string)
    ensures Trim(Trim(s)) == Trim(s)
  {
    var r := Trim(s);
    TrimCutsWhitespace(s);
    assert TrimStart(r) == r;
    assert TrimEnd(r) == r;
  }

  /** The Unicode space separators are cut too, on both sides. */
  lemma TrimCutsUnicodeSpaces()
    ensures Trim("\U{3000}x\U{1680}\U{2007}") == "x"
  {
    assert TrimStart("\U{3000}x\U{1680}\U{2007}") == "x\U{1680}\U{2007}" by {
      assert "\U{3000}x\U{1680}\U{2007}"[1..] == "x\U{1680}\U{2007}";
    }
    assert "x\U{1680}\U{2007}"[..2] == "x\U{1680}";
    assert "x\U{1680}"[..1] == "x";
  }

  /** Concatenation is associative (stated once, for proofs that regroup). */
  lemma ConcatAssociative<T>(a: seq<T>, b: seq<T>, c: seq<T>)
    ensures a + b + c == a + (b + c)
  {
  }

  /** Decimal rendering of a natural number, as in a template literal. */
  function NatToString(n: nat): (r: string)
    ensures r != [] && IsDigits(r)
  {
    var d := ['0', '1', '2', '3', '4', '5', '6', '7', '8', '9'];
    if n < 10 then [d[n]] else NatToString(n / 10) + [d[n % 10]]
  }

  predicate IsDigits(s: string) {
    forall i :: 0 <= i < |s| ==> '0' <= s[i] <= '9'
  }

  /** The number a string of decimal digits denotes. */
  function DigitsValue(s: string): nat
    requires IsDigits(s)
  {
    if s == [] then 0
    else DigitsValue(s[..|s| - 1]) * 10 + (s[|s| - 1] as int - '0' as int)
  }

  /** The rendering denotes the number rendered, without leading zeros. */
  lemma {:induction false} NatToStringValue(n: nat)
    ensures DigitsValue(NatToString(n)) == n
    ensures |NatToString(n)| > 1 ==> NatToString(n)[0] != '0'
  {
    var r := NatToString(n);
    if n >= 10 {
      NatToStringValue(n / 10);
      assert r[..|r| - 1] == NatToString(n / 10);
    }
  }
}
