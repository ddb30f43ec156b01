/** The contact form's field rules, as a pure function of a field's name and
    raw value: the value is trimmed, a required field must not be blank,
    and each field has its own minimum length or shape. */
module Validation {

  /** The white space and line terminators that `String.prototype.trim`
      strips and that `\s` matches in a regular expression. */
  predicate IsSpace(c: char): (b: bool)
    // letters, digits and the e-mail pattern's '@' and '.' are never white space
    ensures b ==> !('a' <= c <= 'z' || 'A' <= c <= 'Z' || '0' <= c <= '9' || c == '@' || c == '.')
    ensures c == ' ' || c == '\t' || c == '\n' || c == '\r' ==> b
  {
    || c == '\t' || c == '\n' || c == '\U{000B}' || c == '\U{000C}' || c == '\r' || c == ' '
    || c == '\U{00A0}' || c == '\U{1680}' || ('\U{2000}' <= c <= '\U{200A}')
    || c == '\U{2028}' || c == '\U{2029}' || c == '\U{202F}' || c == '\U{205F}'
    || c == '\U{3000}' || c == '\U{FEFF}'
  }

  predicate IsBlank(s: string) {
    forall k | 0 <= k < |s| :: IsSpace(s[k])
  }

  lemma BlankConcat(a: string, b: string)
    requires IsBlank(a) && IsBlank(b)
    ensures IsBlank(a + b)
  {
  }

  /** The index of the first character at or after `i` that is not white
      space, or |s| if there is none. */
  function SkipSpaces(s: string, i: nat): (n: nat)
    requires i <= |s|
    ensures i <= n <= |s|
    ensures forall k | i <= k < n :: IsSpace(s[k])
    ensures n == |s| || !IsSpace(s[n])
    decreases |s| - i
  {
    if i < |s| && IsSpace(s[i]) then SkipSpaces(s, i + 1) else i
  }

  /** The index just past the last character before `j` that is not white
      space, or 0 if there is none. */
  function BackOverSpaces(s: string, j: nat): (m: nat)
    requires j <= |s|
    ensures m <= j
    ensures forall k | m <= k < j :: IsSpace(s[k])
    ensures m == 0 || !IsSpace(s[m - 1])
    decreases j
  {
    if j > 0 && IsSpace(s[j - 1]) then BackOverSpaces(s, j - 1) else j
  }

  /** `s.trim()`: what lies between the leading and the trailing white
      space of `s`. */
  function Trim(s: string): (r: string)
    ensures |r| <= |s|
    ensures r == [] <==> IsBlank(s)
    ensures r == [] || (!IsSpace(r[0]) && !IsSpace(r[|r| - 1]))
  {
    var n := SkipSpaces(s, 0);
    if n == |s| then []
    else
      var m := BackOverSpaces(s, |s|);
      assert n < m;
      s[n..m]
  }

  /** Trimming keeps exactly the part between the leading and trailing
      white space, whatever that padding is. */
  lemma TrimPadded(pre: string, mid: string, post: string)
    requires IsBlank(pre) && IsBlank(post)
    requires mid == [] || (!IsSpace(mid[0]) && !IsSpace(mid[|mid| - 1]))
    ensures Trim(pre + mid + post) == mid
  {
    var w := pre + mid + post;
    if mid == [] {
      assert IsBlank(w) by {
        forall k | 0 <= k < |w| ensures IsSpace(w[k]) {
          if k < |pre| { assert w[k] == pre[k]; } else { assert w[k] == post[k - |pre|]; }
        }
      }
    } else {
      var e := |pre| + |mid|;
      assert w[|pre|] == mid[0] && w[e - 1] == mid[|mid| - 1];
      var n := SkipSpaces(w, 0);
      assert n == |pre|;
      var m := BackOverSpaces(w, |w|);
      assert m == e;
      assert w[n..m] == mid;
    }
  }

  lemma TrimIdempotent(s: string)
    ensures Trim(Trim(s)) == Trim(s)
  {
  }

  /** `s.length`: the number of UTF-16 code units, two for every character
      outside the Basic Multilingual Plane. */
  function Utf16Length(s: string): (n: nat)
    ensures |s| <= n <= 2 * |s|
  {
    if s == [] then 0
    else (if s[0] as int >= 0x1_0000 then 2 else 1) + Utf16Length(s[1..])
  }

  /** A character of the class [^\s@]. */
  predicate IsPlain(c: char) {
    !IsSpace(c) && c != '@'
  }

  predicate AllPlain(s: string) {
    forall k | 0 <= k < |s| :: IsPlain(s[k])
  }

  /** What the pattern ^[^\s@]+@[^\s@]+\.[^\s@]+$ matches: three non-empty
      runs of characters other than white space and '@', the first two
      joined by '@' and the last two by '.'. */
  ghost predicate MatchesEmailPattern(s: string): (m: bool)
    ensures m ==> 5 <= |s|
  {
    exists at: int, dot: int | 0 < at && at + 1 < dot && dot + 1 < |s| ::
      && s[at] == '@' && s[dot] == '.'
      && AllPlain(s[..at]) && AllPlain(s[at + 1..dot]) && AllPlain(s[dot + 1..])
  }

  predicate NoSpace(s: string) {
    forall k | 0 <= k < |s| :: !IsSpace(s[k])
  }

  predicate NoAt(s: string) {
    forall k | 0 <= k < |s| :: s[k] != '@'
  }

  /** A '.' that is neither the first nor the last character. */
  predicate HasInnerDot(d: string) {
    exists k | 0 < k < |d| - 1 :: d[k] == '.'
  }

  /** An address of the shape local@domain.tld: no white space, exactly one
      '@', a non-empty local part before it, and a domain after it that
      holds a '.' which is neither its first nor its last character. */
  predicate IsEmailAddress(s: string): (ok: bool)
    ensures ok ==> 5 <= |s|
  {
    && NoSpace(s)
    && exists at | 0 < at < |s| ::
         s[at] == '@' && NoAt(s[..at]) && NoAt(s[at + 1..]) && HasInnerDot(s[at + 1..])
  }

  lemma PatternToShape(s: string, at: int, dot: int)
    requires 0 < at && at + 1 < dot && dot + 1 < |s|
    requires s[at] == '@' && s[dot] == '.'
    requires AllPlain(s[..at]) && AllPlain(s[at + 1..dot]) && AllPlain(s[dot + 1..])
    ensures IsEmailAddress(s)
  {
    var local, mid, tld, d := s[..at], s[at + 1..dot], s[dot + 1..], s[at + 1..];
    forall k | 0 <= k < |s| && k != at ensures IsPlain(s[k]) {
      if k < at {
        assert s[k] == local[k];
      } else if at < k < dot {
        assert s[k] == mid[k - at - 1];
      } else if dot < k {
        assert s[k] == tld[k - dot - 1];
      }
    }
    assert d[dot - at - 1] == '.';
    assert NoAt(local) by {
      forall k | 0 <= k < |local| ensures local[k] != '@' { assert local[k] == s[k]; }
    }
    assert NoAt(d) by {
      forall k | 0 <= k < |d| ensures d[k] != '@' { assert d[k] == s[at + 1 + k]; }
    }
  }

  lemma ShapeToPattern(s: string, at: int)
    requires 0 < at < |s| && NoSpace(s)
    requires s[at] == '@' && NoAt(s[..at]) && NoAt(s[at + 1..]) && HasInnerDot(s[at + 1..])
    ensures MatchesEmailPattern(s)
  {
    var d := s[at + 1..];
    var k :| 0 < k < |d| - 1 && d[k] == '.';
    var dot := at + 1 + k;
    var local, mid, tld := s[..at], s[at + 1..dot], s[dot + 1..];
    forall j | 0 <= j < |s| && j != at ensures IsPlain(s[j]) {
      if j < at { assert s[j] == local[j]; } else { assert s[j] == d[j - at - 1]; }
    }
    assert s[dot] == d[k];
    assert AllPlain(local) by {
      forall j | 0 <= j < |local| ensures IsPlain(local[j]) { assert local[j] == s[j]; }
    }
    assert AllPlain(mid) by {
      forall j | 0 <= j < |mid| ensures IsPlain(mid[j]) { assert mid[j] == s[at + 1 + j]; }
    }
    assert AllPlain(tld) by {
      forall j | 0 <= j < |tld| ensures IsPlain(tld[j]) { assert tld[j] == s[dot + 1 + j]; }
    }
  }

  /** The shape test and the regular expression accept the same strings. */
  lemma EmailPatternIff(s: string)
    ensures MatchesEmailPattern(s) <==> IsEmailAddress(s)
  {
    if MatchesEmailPattern(s) {
      var at: int, dot: int :| 0 < at && at + 1 < dot && dot + 1 < |s|
        && s[at] == '@' && s[dot] == '.'
        && AllPlain(s[..at]) && AllPlain(s[at + 1..dot]) && AllPlain(s[dot + 1..]);
      PatternToShape(s, at, dot);
    }
    if IsEmailAddress(s) {
      var at :| 0 < at < |s| && s[at] == '@' && NoAt(s[..at]) && NoAt(s[at + 1..]) && HasInnerDot(s[at + 1..]);
      ShapeToPattern(s, at);
    }
  }

  /** The outcome of validating one field: its validity and the message
      written into its error slot. */
  datatype Verdict = Verdict(isValid: bool, message: string)

  const Accepted := Verdict(true, "")

  /** The four field names the form checks; any other field always passes. */
  const CheckedFields: set<string> := {"name", "email", "subject", "message"}

  /** A field whose trimmed value must be non-empty and at least `min` code
      units long. */
  function LengthRule(v: string, min: nat, required: string, tooShort: string): (r: Verdict)
    ensures r.isValid <==> v != [] && min <= Utf16Length(v)
    ensures r.isValid ==> r == Accepted
    ensures v == [] ==> r.message == required
    ensures v != [] && Utf16Length(v) < min ==> r.message == tooShort
  {
    if v == [] then Verdict(false, required)
    else if Utf16Length(v) < min then Verdict(false, tooShort)
    else Accepted
  }

  /** The verdict for a field named `fieldName` whose trimmed value is `v`. */
  function Judge(fieldName: string, v: string): (r: Verdict)
    ensures r.isValid <==> r.message == ""
    ensures fieldName !in CheckedFields ==> r == Accepted
  {
    if fieldName == "name" then
      LengthRule(v, 2, "Name is required", "Name must be at least 2 characters")
    else if fieldName == "email" then
      if v == [] then Verdict(false, "Email is required")
      else if !IsEmailAddress(v) then Verdict(false, "Please enter a valid email address")
      else Accepted
    else if fieldName == "subject" then
      LengthRule(v, 3, "Subject is required", "Subject must be at least 3 characters")
    else if fieldName == "message" then
      LengthRule(v, 10, "Message is required", "Message must be at least 10 characters")
    else
      Accepted
  }

  /** The verdict for a field named `fieldName` holding `value`: the value
      is trimmed first. The rule each field applies is stated by
      FieldRules. */
  function ValidateValue(fieldName: string, value: string): (r: Verdict)
    ensures r.isValid <==> r.message == ""
    ensures fieldName !in CheckedFields ==> r == Accepted
  {
    Judge(fieldName, Trim(value))
  }

  /** The rule of each checked field. A blank value is reported as missing;
      otherwise name, subject and message need a minimum length of the
      trimmed value in UTF-16 units, and email must match the pattern. */
  lemma FieldRules(fieldName: string, value: string)
    ensures var r := ValidateValue(fieldName, value);
      && (fieldName == "name" && IsBlank(value) ==> r == Verdict(false, "Name is required"))
      && (fieldName == "email" && IsBlank(value) ==> r == Verdict(false, "Email is required"))
      && (fieldName == "subject" && IsBlank(value) ==> r == Verdict(false, "Subject is required"))
      && (fieldName == "message" && IsBlank(value) ==> r == Verdict(false, "Message is required"))
      && (fieldName == "name" && !IsBlank(value) ==>
           r == (if Utf16Length(Trim(value)) >= 2 then Accepted else Verdict(false, "Name must be at least 2 characters")))
      && (fieldName == "email" && !IsBlank(value) ==>
           r == (if MatchesEmailPattern(Trim(value)) then Accepted else Verdict(false, "Please enter a valid email address")))
      && (fieldName == "subject" && !IsBlank(value) ==>
           r == (if Utf16Length(Trim(value)) >= 3 then Accepted else Verdict(false, "Subject must be at least 3 characters")))
      && (fieldName == "message" && !IsBlank(value) ==>
           r == (if Utf16Length(Trim(value)) >= 10 then Accepted else Verdict(false, "Message must be at least 10 characters")))
  {
    EmailPatternIff(Trim(value));
  }

  lemma Regroup(p: string, a: string, t: string, c: string, q: string)
    ensures p + (a + t + c) + q == (p + a) + t + (c + q)
  {
  }

  /** Extra white space around a value does not change its trim. */
  lemma TrimIgnoresPadding(pre: string, value: string, post: string)
    requires IsBlank(pre) && IsBlank(post)
    ensures Trim(pre + value + post) == Trim(value)
  {
    if IsBlank(value) {
      assert IsBlank(pre + value + post) by {
        BlankConcat(pre, value);
        BlankConcat(pre + value, post);
      }
    } else {
      TrimIgnoresOuterPadding(pre, value, post);
    }
  }

  /** The case of TrimIgnoresPadding where the value has a non-blank core:
      its own padding joins the outer padding. */
  lemma TrimIgnoresOuterPadding(pre: string, value: string, post: string)
    requires IsBlank(pre) && IsBlank(post) && !IsBlank(value)
    ensures Trim(pre + value + post) == Trim(value)
  {
    var t := Trim(value);
    var a, c := TrimSplit(value);
    assert IsBlank(pre + a) by {
      BlankConcat(pre, a);
    }
    assert IsBlank(c + post) by {
      BlankConcat(c, post);
    }
    assert pre + value + post == (pre + a) + t + (c + post) by {
      Regroup(pre, a, t, c, post);
    }
    TrimPadded(pre + a, t, c + post);
  }

  lemma BlankSlice(s: string, i: nat, j: nat)
    requires i <= j <= |s|
    requires forall k | i <= k < j :: IsSpace(s[k])
    ensures IsBlank(s[i..j])
  {
    forall k | 0 <= k < j - i ensures IsSpace(s[i..j][k]) {
      assert s[i..j][k] == s[i + k];
    }
  }

  /** A value is its leading white space, its trim and its trailing white
      space. */
  lemma TrimSplit(value: string) returns (a: string, c: string)
    requires !IsBlank(value)
    ensures value == a + Trim(value) + c
    ensures IsBlank(a) && IsBlank(c)
  {
    var n, m := TrimIsSlice(value);
    a, c := value[..n], value[m..];
    BlankSlice(value, 0, n);
    BlankSlice(value, m, |value|);
    SliceSplit(value, n, m);
  }

  /** The trim of a value that is not blank runs from its first to just
      past its last non-space character. */
  lemma TrimIsSlice(value: string) returns (n: nat, m: nat)
    requires !IsBlank(value)
    ensures n <= m <= |value| && Trim(value) == value[n..m]
    ensures forall k | 0 <= k < n :: IsSpace(value[k])
    ensures forall k | m <= k < |value| :: IsSpace(value[k])
  {
    n := SkipSpaces(value, 0);
    m := BackOverSpaces(value, |value|);
  }

  lemma SliceSplit(s: string, n: nat, m: nat)
    requires n <= m <= |s|
    ensures s == s[..n] + s[n..m] + s[m..]
  {
  }

  /** Padding never changes a verdict: surrounding white space is ignored. */
  lemma PaddingIgnored(fieldName: string, pre: string, value: string, post: string)
    requires IsBlank(pre) && IsBlank(post)
    ensures ValidateValue(fieldName, pre + value + post) == ValidateValue(fieldName, value)
  {
    TrimIgnoresPadding(pre, value, post);
  }
}
