/**
 * The input checks that open every handler in lib/handlers.js: a field is
 * accepted when `typeof` says it is a string and its `trim()` has the
 * required length, and the accepted value is the trimmed string; a flag is
 * accepted only when it is the boolean `true`.
 */
module Validate {
  import opened Records

  /** The characters JavaScript's `String.prototype.trim` removes: white space and line terminators. */
  predicate IsSpace(c: char) {
    || c == ' ' || c == '\t' || c == '\n' || c == '\r'
    || c == '\U{000B}' || c == '\U{000C}' || c == '\U{00A0}' || c == '\U{FEFF}'
    || c == '\U{1680}' || ('\U{2000}' <= c <= '\U{200A}')
    || c == '\U{2028}' || c == '\U{2029}' || c == '\U{202F}' || c == '\U{205F}' || c == '\U{3000}'
  }

  /** The length of the longest all-space prefix of `s`. */
  function LeadingSpace(s: string): (n: nat)
    ensures n <= |s|
    ensures forall k | 0 <= k < n :: IsSpace(s[k])
    ensures n < |s| ==> !IsSpace(s[n])
  {
    if s == [] || !IsSpace(s[0]) then 0 else 1 + LeadingSpace(s[1..])
  }

  /** The length of the longest all-space suffix of `s`. */
  function TrailingSpace(s: string): (n: nat)
    ensures n <= |s|
    ensures forall k | |s| - n <= k < |s| :: IsSpace(s[k])
    ensures n < |s| ==> !IsSpace(s[|s| - 1 - n])
  {
    if s == [] || !IsSpace(s[|s| - 1]) then 0 else 1 + TrailingSpace(s[..|s| - 1])
  }

  /**
   * `s.trim()`: the infix of `s` left after removing the longest space
   * prefix and then the longest space suffix. Every removed character is a
   * space and a non-empty result neither starts nor ends with one.
   */
  function Trim(s: string): (r: string)
    ensures LeadingSpace(s) + |r| <= |s|
    ensures r == s[LeadingSpace(s)..LeadingSpace(s) + |r|]
    ensures forall k | 0 <= k < |s| && !(LeadingSpace(s) <= k < LeadingSpace(s) + |r|) :: IsSpace(s[k])
    ensures r != [] ==> !IsSpace(r[0]) && !IsSpace(r[|r| - 1])
  {
    var lo := LeadingSpace(s);
    var rest := s[lo..];
    rest[..|rest| - TrailingSpace(rest)]
  }

  /** Trimming a string that neither starts nor ends with a space gives it back. */
  lemma TrimmedIsFixed(s: string)
    requires s != [] ==> !IsSpace(s[0]) && !IsSpace(s[|s| - 1])
    ensures Trim(s) == s
  {
    assert LeadingSpace(s) == 0;
    assert s[0..] == s;
  }

  /** `trim()` is idempotent. */
  lemma TrimIdempotent(s: string)
    ensures Trim(Trim(s)) == Trim(s)
  {
    TrimmedIsFixed(Trim(s));
  }

  /**
   * A required or optional text field: a string whose trim is non-empty,
   * yielding the trimmed text (`typeof(x) == 'string' && x.trim().length > 0 ? x.trim() : false`).
   */
  function NonEmptyText(v: Option<Value>): (r: Option<string>)
    ensures r.Some? <==> v.Some? && v.value.Str? && |Trim(v.value.s)| > 0
    ensures r.Some? ==> r.value == Trim(v.value.s)
  {
    if v.Some? && v.value.Str? && |Trim(v.value.s)| > 0 then Some(Trim(v.value.s)) else None
  }

  /**
   * A phone number (n = 10) or an id (n = 20): a string whose trim has
   * exactly n characters, yielding the trimmed text.
   */
  function FixedLengthText(v: Option<Value>, n: nat): (r: Option<string>)
    ensures r.Some? <==> v.Some? && v.value.Str? && |Trim(v.value.s)| == n
    ensures r.Some? ==> r.value == Trim(v.value.s)
  {
    if v.Some? && v.value.Str? && |Trim(v.value.s)| == n then Some(Trim(v.value.s)) else None
  }

  /** `typeof(x) == 'boolean' && x == true`. */
  predicate IsTrue(v: Option<Value>) {
    v == Some(Bool(true))
  }

  /** What every accepted text field holds: non-empty and already trimmed. */
  lemma {:induction false} AcceptedTextIsTrimmed(v: Option<Value>, n: nat)
    ensures NonEmptyText(v).Some? ==> NonEmptyText(v).value != [] && Trim(NonEmptyText(v).value) == NonEmptyText(v).value
    ensures FixedLengthText(v, n).Some? ==> |FixedLengthText(v, n).value| == n && Trim(FixedLengthText(v, n).value) == FixedLengthText(v, n).value
  {
    if v.Some? && v.value.Str? {
      TrimIdempotent(v.value.s);
    }
  }

  /** Adding spaces around a field does not change whether or how it is accepted. */
  lemma {:induction false} PaddingIgnored(s: string, left: string, right: string, n: nat)
    requires forall k | 0 <= k < |left| :: IsSpace(left[k])
    requires forall k | 0 <= k < |right| :: IsSpace(right[k])
    ensures NonEmptyText(Some(Str(left + s + right))) == NonEmptyText(Some(Str(s)))
    ensures FixedLengthText(Some(Str(left + s + right)), n) == FixedLengthText(Some(Str(s)), n)
  {
    PaddedTrim(s, left, right);
  }

  /** White space added before and after a string does not change its trim. */
  lemma {:induction false} PaddedTrim(s: string, left: string, right: string)
    requires forall k | 0 <= k < |left| :: IsSpace(left[k])
    requires forall k | 0 <= k < |right| :: IsSpace(right[k])
    ensures Trim(left + s + right) == Trim(s)
  {
    var t := left + s + right;
    var r := Trim(s);
    var lo := LeadingSpace(s);
    // r sits in t at offset |left| + lo, and everything around it in t is space
    assert t[|left| + lo..|left| + lo + |r|] == r;
    TrimUnique(t, |left| + lo, r);
  }

  /** Trim is characterised by its contract: an infix with space all around and non-space ends. */
  lemma {:induction false} TrimUnique(t: string, lo: nat, r: string)
    requires lo + |r| <= |t| && t[lo..lo + |r|] == r
    requires forall k | 0 <= k < |t| && !(lo <= k < lo + |r|) :: IsSpace(t[k])
    requires r != [] ==> !IsSpace(r[0]) && !IsSpace(r[|r| - 1])
    ensures Trim(t) == r
  {
    var r' := Trim(t);
    var lo' := LeadingSpace(t);
    if r != [] {
      assert t[lo] == r[0];
      if r' == [] {
        assert false;
      }
      assert t[lo'] == r'[0];
      assert lo' == lo;
      assert t[lo + |r| - 1] == r[|r| - 1];
      assert t[lo' + |r'| - 1] == r'[|r'| - 1];
      assert |r'| == |r|;
    }
  }

  /**
   * The token header as a store key: the header when it is a string and
   * otherwise `false`, which the file store turns into the key "false".
   */
  function HeaderToken(headers: map<string, Value>): (key: string)
    ensures "token" in headers && headers["token"].Str? ==> key == headers["token"].s
    ensures !("token" in headers && headers["token"].Str?) ==> key == "false"
  {
    match Field(headers, "token")
    case Some(Str(s)) => s
    case _ => "false"
  }
}
