/**
 * The two field types of a contact: `Name`, whose value is its input with
 * surrounding whitespace stripped, and `Phone`, whose value must pass
 * `_validate_phone` (all digits, then exactly ten characters).
 */
module Fields {

  // ----- Name -----------------------------------------------------------

  /** The characters Python's `str.strip()` removes (those `str.isspace()` accepts). */
  predicate IsSpace(c: char)
  {
    c == ' ' || '\t' <= c <= '\r' || '\U{1C}' <= c <= '\U{1F}' ||
    c == '\U{85}' || c == '\U{A0}' || c == '\U{1680}' || '\U{2000}' <= c <= '\U{200A}' ||
    c == '\U{2028}' || c == '\U{2029}' || c == '\U{202F}' || c == '\U{205F}' || c == '\U{3000}'
  }

  ghost predicate AllSpace(s: string)
  {
    forall k :: 0 <= k < |s| ==> IsSpace(s[k])
  }

  /** Drops leading whitespace: what is left is a suffix of `s` that does not start with whitespace. */
  function TrimStart(s: string): (r: string)
    ensures |r| <= |s| && r == s[|s| - |r|..]
    ensures AllSpace(s[..|s| - |r|])
    ensures r == [] || !IsSpace(r[0])
  {
    if s != [] && IsSpace(s[0]) then
      var r := TrimStart(s[1..]);
      assert s[..|s| - |r|] == [s[0]] + s[1..][..|s| - 1 - |r|];
      r
    else s
  }

  /** Drops trailing whitespace: what is left is a prefix of `s` that does not end with whitespace. */
  function TrimEnd(s: string): (r: string)
    ensures |r| <= |s| && r == s[..|r|]
    ensures AllSpace(s[|r|..])
    ensures r == [] || !IsSpace(r[|r| - 1])
  {
    if s != [] && IsSpace(s[|s| - 1]) then
      var r := TrimEnd(s[..|s| - 1]);
      assert s[|r|..] == s[..|s| - 1][|r|..] + [s[|s| - 1]];
      r
    else s
  }

  /** `str.strip()`: the value `Name(value)` stores (bot_helper.py line 12). */
  function Strip(s: string): (r: string)
    ensures |r| <= |s|
    ensures r == [] || (!IsSpace(r[0]) && !IsSpace(r[|r| - 1]))
    ensures exists i :: StrippedAt(s, i, r)
  {
    var t := TrimStart(s);
    var r := TrimEnd(t);
    var i := |s| - |t|;
    SuffixPrefix(s, t, r);
    assert StrippedAt(s, i, r);
    r
  }

  /** The prefix `r` of the suffix `t` of `s` sits in `s` at the offset where `t` starts. */
  lemma SuffixPrefix(s: string, t: string, r: string)
    requires |t| <= |s| && t == s[|s| - |t|..]
    requires |r| <= |t| && r == t[..|r|]
    ensures s[|s| - |t|..|s| - |t| + |r|] == r && s[|s| - |t| + |r|..] == t[|r|..]
    ensures r != [] ==> r[0] == t[0]
  {
  }

  /** `r` sits at offset `i` of `s` with only whitespace before and after it. */
  ghost predicate StrippedAt(s: string, i: nat, r: string)
  {
    i + |r| <= |s| && s[i..i + |r|] == r && AllSpace(s[..i]) && AllSpace(s[i + |r|..])
  }

  /** Whitespace around a name that has none at its ends is exactly what stripping removes. */
  lemma StripPadded(pre: string, core: string, post: string)
    requires AllSpace(pre) && AllSpace(post)
    requires core == [] || (!IsSpace(core[0]) && !IsSpace(core[|core| - 1]))
    ensures Strip(pre + core + post) == core
  {
    var s := pre + core + post;
    if core == [] {
      assert s == (pre + post) + [];
      assert AllSpace(pre + post) by {
        forall k | 0 <= k < |pre + post| ensures IsSpace((pre + post)[k]) {
          if k >= |pre| { assert (pre + post)[k] == post[k - |pre|]; }
        }
      }
      StartOfPadded(pre + post, []);
    } else {
      assert s == pre + (core + post);
      StartOfPadded(pre, core + post);
      EndOfPadded(core, post);
    }
  }

  lemma {:induction false} StartOfPadded(pre: string, rest: string)
    requires AllSpace(pre)
    requires rest == [] || !IsSpace(rest[0])
    ensures TrimStart(pre + rest) == rest
  {
    if pre != [] {
      assert (pre + rest)[1..] == pre[1..] + rest;
      StartOfPadded(pre[1..], rest);
    }
  }

  lemma {:induction false} EndOfPadded(rest: string, post: string)
    requires AllSpace(post)
    requires rest == [] || !IsSpace(rest[|rest| - 1])
    ensures TrimEnd(rest + post) == rest
  {
    if post != [] {
      var p := post[..|post| - 1];
      assert (rest + post)[..|rest + post| - 1] == rest + p;
      EndOfPadded(rest, p);
    } else {
      assert rest + post == rest;
    }
  }

  /** A stripped name is stripped already: `Name(Name(s).value).value == Name(s).value`. */
  lemma StripIdempotent(s: string)
    ensures Strip(Strip(s)) == Strip(s)
  {
    var r := Strip(s);
    StripPadded([], r, []);
    assert [] + r + [] == r;
  }

  // ----- Phone ----------------------------------------------------------

  predicate IsDigit(c: char)
  {
    '0' <= c <= '9'
  }

  /** `str.isdigit()`: false for the empty string, otherwise every character is a digit. */
  function IsDigits(s: string): (r: bool)
    ensures r <==> s != [] && forall k :: 0 <= k < |s| ==> IsDigit(s[k])
  {
    if |s| == 0 then false
    else if |s| == 1 then IsDigit(s[0])
    else IsDigit(s[0]) && IsDigits(s[1..])
  }

  /** The phone number invariant: exactly ten decimal digits. */
  ghost predicate ValidPhone(s: string)
  {
    |s| == 10 && forall k :: 0 <= k < |s| ==> IsDigit(s[k])
  }

  /** A `ValueError` or a `KeyError` raised by the contact book, as a kind and the offending text. */
  datatype Error =
    | NotDigits(phone: string)       // the phone is empty or has a non-digit character
    | WrongLength(phone: string)     // the phone is all digits but not ten of them
    | SameAsOld                      // an edit whose new phone equals the old one
    | PhoneNotFound(phone: string)   // no phone of the record equals the given one
    | RecordNotFound(name: string)   // the book has no record under the name (a KeyError)

  /** The outcome of an operation that returns nothing in Python but may raise. */
  datatype Outcome = Pass | Fail(error: Error)

  /**
   * `Phone._validate_phone`: the digit rule is checked first, so a string
   * that breaks both rules (the empty string among them) gets the digit
   * error; the length rule is checked only on all-digit strings.
   */
  function ValidatePhone(s: string): (r: Outcome)
    ensures r.Pass? <==> ValidPhone(s)
    ensures r == Fail(NotDigits(s)) <==> (s == [] || exists k :: 0 <= k < |s| && !IsDigit(s[k]))
    ensures r == Fail(WrongLength(s)) <==> (s != [] && (forall k :: 0 <= k < |s| ==> IsDigit(s[k])) && |s| != 10)
    ensures r.Pass? || r == Fail(NotDigits(s)) || r == Fail(WrongLength(s))
  {
    if !IsDigits(s) then Fail(NotDigits(s))
    else if |s| != 10 then Fail(WrongLength(s))
    else Pass
  }
}
