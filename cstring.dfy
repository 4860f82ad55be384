/**
  The parts of the C library the Landsat metadata reader relies on, over
  NUL-terminated character buffers: strstr, strtok (whose hidden save pointer is
  an explicit argument and result here), atoi and the `%d` conversion of printf.
 */
module CString {
  import opened Wrappers

  const NUL: char := '\0'

  /** A buffer that ends in a NUL, as every C string buffer here does. */
  ghost predicate Terminated(buf: seq<char>)
  {
    |buf| > 0 && buf[|buf| - 1] == NUL
  }

  /** The C string that starts at index i: the characters up to (not including) the first NUL. */
  function CStr(buf: seq<char>, i: nat): (s: string)
    requires Terminated(buf) && i < |buf|
    ensures i + |s| < |buf|
    decreases |buf| - i
  {
    if buf[i] == NUL then [] else [buf[i]] + CStr(buf, i + 1)
  }

  // ---------------------------------------------------------------------------
  // strstr

  /** `key` occurs in s at index k. */
  predicate OccursAt(s: string, key: string, k: nat)
  {
    k + |key| <= |s| && s[k..k + |key|] == key
  }

  /** The first index at or after i where `key` occurs in s. */
  function FindFrom(s: string, key: string, i: nat): (r: Option<nat>)
    requires |key| > 0
    ensures r.Some? ==> i <= r.value && OccursAt(s, key, r.value)
    ensures forall k :: i <= k && (r.None? || k < r.value) ==> !OccursAt(s, key, k)
    decreases |s| - i
  {
    if i + |key| > |s| then None
    else if s[i..i + |key|] == key then Some(i)
    else FindFrom(s, key, i + 1)
  }

  /** strstr: the index of the first occurrence of `key` in the C string at the start of `buf`. */
  function StrStr(buf: seq<char>, key: string): (r: Option<nat>)
    requires Terminated(buf) && |key| > 0
    ensures r.Some? ==> r.value + |key| < |buf|
  {
    FindFrom(CStr(buf, 0), key, 0)
  }

  /** A key whose first character does not occur in s does not occur in s. */
  lemma NotFound(s: string, key: string)
    requires |key| > 0 && key[0] !in s
    ensures FindFrom(s, key, 0) == None
  {
  }

  /** Wherever the first character of key stands in v, a later character of v differs from the key's at the same distance. */
  predicate Mismatched(v: string, key: string)
  {
    forall k :: 0 <= k < |v| && |key| > 0 && v[k] == key[0] ==>
      exists j :: 0 < j < |key| && k + j < |v| && v[k + j] != key[j]
  }

  /**
    A key does not occur in u + v + w when its first character is absent from u
    and w and every place it stands in v is mismatched within v.
   */
  lemma AbsentAround(u: string, v: string, w: string, key: string)
    requires |key| > 0 && key[0] !in u && key[0] !in w && Mismatched(v, key)
    ensures FindFrom(u + v + w, key, 0) == None
  {
    forall k: nat
      ensures !OccursAt(u + v + w, key, k)
    {
      NotAtAround(u, v, w, key, k);
    }
  }

  lemma NotAtAround(u: string, v: string, w: string, key: string, k: nat)
    requires |key| > 0 && key[0] !in u && key[0] !in w && Mismatched(v, key)
    ensures !OccursAt(u + v + w, key, k)
  {
    var s := u + v + w;
    if k + |key| <= |s| {
      var t := s[k..k + |key|];
      assert t[0] == s[k];
      if k < |u| {
        assert s[k] == u[k];
      } else if k < |u| + |v| {
        var i := k - |u|;
        assert s[k] == v[i];
        if v[i] == key[0] {
          var j :| 0 < j < |key| && i + j < |v| && v[i + j] != key[j];
          assert t[j] == s[k + j] == v[i + j];
        }
      } else {
        assert s[k] == w[k - |u| - |v|];
      }
    }
  }

  /** A key found at the end of a prefix in which it does not start is found there first. */
  lemma FoundAt(s: string, key: string, a: nat)
    requires |key| > 0 && OccursAt(s, key, a)
    requires forall k :: 0 <= k < a ==> s[k] != key[0]
    ensures FindFrom(s, key, 0) == Some(a)
  {
    forall k | 0 <= k < a
      ensures !OccursAt(s, key, k)
    {
      if k + |key| <= |s| {
        assert s[k..k + |key|][0] == s[k];
      }
    }
  }

  // ---------------------------------------------------------------------------
  // strtok

  /** strspn from i: the first index at or after i that holds NUL or a non-delimiter. */
  function SpanEnd(buf: seq<char>, i: nat, delims: set<char>): (j: nat)
    requires Terminated(buf) && i < |buf|
    ensures i <= j < |buf|
    decreases |buf| - i
  {
    if buf[i] != NUL && buf[i] in delims then SpanEnd(buf, i + 1, delims) else i
  }

  /** strcspn from i: the first index at or after i that holds NUL or a delimiter. */
  function CSpanEnd(buf: seq<char>, i: nat, delims: set<char>): (j: nat)
    requires Terminated(buf) && i < |buf|
    ensures i <= j < |buf|
    decreases |buf| - i
  {
    if buf[i] != NUL && buf[i] !in delims then CSpanEnd(buf, i + 1, delims) else i
  }

  /** strspn stops at the first NUL or non-delimiter. */
  lemma {:induction false} SpanEndFacts(buf: seq<char>, i: nat, delims: set<char>)
    requires Terminated(buf) && i < |buf|
    ensures var j := SpanEnd(buf, i, delims);
            && (buf[j] == NUL || buf[j] !in delims)
            && forall k :: i <= k < j ==> buf[k] != NUL && buf[k] in delims
    decreases |buf| - i
  {
    if buf[i] != NUL && buf[i] in delims {
      SpanEndFacts(buf, i + 1, delims);
    }
  }

  /** strcspn stops at the first NUL or delimiter. */
  lemma {:induction false} CSpanEndFacts(buf: seq<char>, i: nat, delims: set<char>)
    requires Terminated(buf) && i < |buf|
    ensures var j := CSpanEnd(buf, i, delims);
            && (buf[j] == NUL || buf[j] in delims)
            && forall k :: i <= k < j ==> buf[k] != NUL && buf[k] !in delims
    decreases |buf| - i
  {
    if buf[i] != NUL && buf[i] !in delims {
      CSpanEndFacts(buf, i + 1, delims);
    }
  }

  /** The C string at i is the run of buffer characters before the next NUL. */
  lemma {:induction false} CStrFacts(buf: seq<char>, i: nat)
    requires Terminated(buf) && i < |buf|
    ensures var s := CStr(buf, i);
            && NUL !in s && buf[i + |s|] == NUL && s == buf[i..i + |s|]
    decreases |buf| - i
  {
    if buf[i] != NUL {
      CStrFacts(buf, i + 1);
    }
  }

  /** The outcome of one strtok call: the token's start (None for NULL), the buffer, the new save pointer. */
  datatype Tok = Tok(token: Option<nat>, buf: seq<char>, save: nat)

  /**
    strtok continuing at `from`: skip the delimiters; at the end of the string
    there is no token; otherwise the token runs to the next delimiter, which is
    overwritten with NUL, and the next call continues just after it.
   */
  function Strtok(buf: seq<char>, from: nat, delims: set<char>): (r: Tok)
    requires Terminated(buf) && from < |buf| && NUL !in delims
    ensures Terminated(r.buf) && |r.buf| == |buf| && from <= r.save < |buf|
    ensures r.token.Some? ==> r.token.value < |buf|
    ensures forall k :: 0 <= k < from ==> r.buf[k] == buf[k]
  {
    var s := SpanEnd(buf, from, delims);
    if buf[s] == NUL then Tok(None, buf, s)
    else
      var e := CSpanEnd(buf, s, delims);
      if buf[e] == NUL then Tok(Some(s), buf, e)
      else Tok(Some(s), buf[e := NUL], e + 1)
  }

  /**
    What strtok promises: with no token, the rest of the string is delimiters only;
    with a token, it is preceded by delimiters only, it is non-empty, holds no
    delimiter, and is followed by a delimiter or the end of the string; nothing
    before the token's end changes.
   */
  lemma StrtokToken(buf: seq<char>, from: nat, delims: set<char>)
    requires Terminated(buf) && from < |buf| && NUL !in delims
    ensures var r := Strtok(buf, from, delims);
            r.token.None? ==> forall c :: c in CStr(buf, from) ==> c in delims
    ensures var r := Strtok(buf, from, delims);
            r.token.Some? ==>
              var t := CStr(r.buf, r.token.value);
              && from <= r.token.value
              && (forall k :: from <= k < r.token.value ==> buf[k] in delims)
              && |t| > 0 && t == buf[r.token.value..r.token.value + |t|]
              && (forall c :: c in t ==> c !in delims)
              && (buf[r.token.value + |t|] == NUL || buf[r.token.value + |t|] in delims)
              && r.buf[..r.token.value + |t|] == buf[..r.token.value + |t|]
  {
    var r := Strtok(buf, from, delims);
    var s := SpanEnd(buf, from, delims);
    SpanEndFacts(buf, from, delims);
    if r.token.None? {
      CStrAllIn(buf, from, s, delims);
    } else {
      var e := CSpanEnd(buf, s, delims);
      CSpanEndFacts(buf, s, delims);
      CStrUpTo(r.buf, s, e);
    }
  }

  /** strspn stops at j when the characters before j are delimiters and the one at j is not. */
  lemma {:induction false} SpanTo(buf: seq<char>, i: nat, j: nat, delims: set<char>)
    requires Terminated(buf) && i <= j < |buf| && NUL !in delims
    requires forall k :: i <= k < j ==> buf[k] in delims
    requires buf[j] == NUL || buf[j] !in delims
    ensures SpanEnd(buf, i, delims) == j
    decreases j - i
  {
    if i < j {
      SpanTo(buf, i + 1, j, delims);
    }
  }

  /** strcspn stops at j when the characters before j are ordinary and the one at j is a delimiter or NUL. */
  lemma {:induction false} CSpanTo(buf: seq<char>, i: nat, j: nat, delims: set<char>)
    requires Terminated(buf) && i <= j < |buf|
    requires forall k :: i <= k < j ==> buf[k] != NUL && buf[k] !in delims
    requires buf[j] == NUL || buf[j] in delims
    ensures CSpanEnd(buf, i, delims) == j
    decreases j - i
  {
    if i < j {
      CSpanTo(buf, i + 1, j, delims);
    }
  }

  /**
    strtok on a buffer laid out as delimiters from `from` to s, an ordinary run
    from s to e, then a delimiter or the NUL at e: the token is that run, and the
    delimiter, if any, is overwritten.
   */
  lemma StrtokRun(buf: seq<char>, from: nat, s: nat, e: nat, delims: set<char>)
    requires Terminated(buf) && NUL !in delims && from <= s < e < |buf|
    requires forall k :: from <= k < s ==> buf[k] in delims
    requires forall k :: s <= k < e ==> buf[k] != NUL && buf[k] !in delims
    requires buf[e] == NUL || buf[e] in delims
    ensures var r := Strtok(buf, from, delims);
            && r.token == Some(s)
            && r.buf == (if buf[e] == NUL then buf else buf[e := NUL])
            && r.save == (if buf[e] == NUL then e else e + 1)
            && CStr(r.buf, s) == buf[s..e]
  {
    SpanTo(buf, from, s, delims);
    CSpanTo(buf, s, e, delims);
    var r := Strtok(buf, from, delims);
    CStrUpTo(r.buf, s, e);
  }

  lemma SliceSplit(s: seq<char>, i: nat, j: nat, k: nat)
    requires i <= j <= k <= |s|
    ensures s[i..k] == s[i..j] + s[j..k]
  {
  }

  lemma {:induction false} CStrAllIn(buf: seq<char>, i: nat, j: nat, delims: set<char>)
    requires Terminated(buf) && i <= j < |buf| && buf[j] == NUL
    requires forall k :: i <= k < j ==> buf[k] != NUL && buf[k] in delims
    ensures forall c :: c in CStr(buf, i) ==> c in delims
    decreases j - i
  {
    if i < j {
      CStrAllIn(buf, i + 1, j, delims);
    }
  }

  /** The C string at i is the run of characters up to a NUL at j, when there is none in between. */
  lemma {:induction false} CStrUpTo(buf: seq<char>, i: nat, j: nat)
    requires Terminated(buf) && i <= j < |buf| && buf[j] == NUL
    requires forall k :: i <= k < j ==> buf[k] != NUL
    ensures CStr(buf, i) == buf[i..j]
    decreases j - i
  {
    if i < j {
      CStrUpTo(buf, i + 1, j);
    }
  }

  /** strtok on an array buffer, scanning as the C library does; it writes at most one NUL. */
  method StrtokAt(buf: array<char>, from: nat, delims: set<char>) returns (token: Option<nat>, save: nat)
    requires Terminated(buf[..]) && from < buf.Length && NUL !in delims
    modifies buf
    ensures Tok(token, buf[..], save) == Strtok(old(buf[..]), from, delims)
  {
    var s := from;
    while buf[s] != NUL && buf[s] in delims
      invariant from <= s < buf.Length
      invariant SpanEnd(buf[..], from, delims) == SpanEnd(buf[..], s, delims)
      decreases buf.Length - s
    {
      s := s + 1;
    }
    if buf[s] == NUL {
      return None, s;
    }
    var e := s;
    while buf[e] != NUL && buf[e] !in delims
      invariant s <= e < buf.Length
      invariant CSpanEnd(buf[..], s, delims) == CSpanEnd(buf[..], e, delims)
      decreases buf.Length - e
    {
      e := e + 1;
    }
    if buf[e] == NUL {
      return Some(s), e;
    }
    buf[e] := NUL;
    return Some(s), e + 1;
  }

  // ---------------------------------------------------------------------------
  // atoi and %d

  predicate IsDigit(c: char) { '0' <= c <= '9' }

  /** isspace in the C locale. */
  predicate IsSpace(c: char)
  {
    c == ' ' || c == '\t' || c == '\n' || c == '\U{B}' || c == '\U{C}' || c == '\r'
  }

  function DigitValue(c: char): nat
    requires IsDigit(c)
  {
    (c as int - '0' as int) as nat
  }

  function DigitChar(d: nat): (c: char)
    requires d < 10
    ensures IsDigit(c) && DigitValue(c) == d
  {
    ('0' as int + d) as char
  }

  ghost predicate AllDigits(s: string)
  {
    forall i :: 0 <= i < |s| ==> IsDigit(s[i])
  }

  /** The value of a string of decimal digits. */
  function NatValue(ds: string): nat
    requires AllDigits(ds)
  {
    if ds == [] then 0 else NatValue(ds[..|ds| - 1]) * 10 + DigitValue(ds[|ds| - 1])
  }

  /** The leading run of digits of s. */
  function LeadingDigits(s: string): (ds: string)
    ensures AllDigits(ds)
  {
    if s != [] && IsDigit(s[0]) then [s[0]] + LeadingDigits(s[1..]) else []
  }

  function SkipSpaces(s: string): (t: string)
  {
    if s != [] && IsSpace(s[0]) then SkipSpaces(s[1..]) else s
  }

  /**
    atoi: leading white space, an optional sign, then the leading digits; anything
    after them is ignored, and no digits give 0. (The C function's behaviour on
    overflow is undefined; here integers are unbounded.)
   */
  function Atoi(s: string): int
  {
    var t := SkipSpaces(s);
    if t != [] && t[0] == '-' then -(NatValue(LeadingDigits(t[1..])) as int)
    else if t != [] && t[0] == '+' then NatValue(LeadingDigits(t[1..]))
    else NatValue(LeadingDigits(t))
  }

  /** The `%d` conversion of a natural number: its decimal digits, without leading zeros. */
  function NatString(n: nat): (s: string)
    ensures |s| > 0 && AllDigits(s)
    ensures (n == 0) == (s == "0") && (n > 0 ==> s[0] != '0')
  {
    if n < 10 then [DigitChar(n)] else NatString(n / 10) + [DigitChar(n % 10)]
  }

  /** The `%d` conversion of printf: a minus sign before negative numbers. */
  function Decimal(n: int): (s: string)
    ensures |s| > 0
  {
    if n < 0 then "-" + NatString(-n) else NatString(n)
  }

  lemma {:induction false} NatStringValue(n: nat)
    ensures NatValue(NatString(n)) == n
  {
    if n >= 10 {
      NatStringValue(n / 10);
      var s := NatString(n);
      assert s[..|s| - 1] == NatString(n / 10);
    }
  }

  /** The number of digits `%d` writes for a natural number. */
  lemma {:induction false} NatStringLength(n: nat)
    ensures n < 10 ==> |NatString(n)| == 1
    ensures 10 <= n < 100 ==> |NatString(n)| == 2
    ensures 100 <= n < 1000 ==> |NatString(n)| == 3
    ensures 1000 <= n < 10000 ==> |NatString(n)| == 4
  {
    if n >= 10 {
      NatStringLength(n / 10);
    }
  }

  lemma {:induction false} LeadingAllDigits(ds: string, rest: string)
    requires AllDigits(ds) && (rest == [] || !IsDigit(rest[0]))
    ensures LeadingDigits(ds + rest) == ds
    decreases |ds|
  {
    if ds != [] {
      assert (ds + rest)[1..] == ds[1..] + rest;
      LeadingAllDigits(ds[1..], rest);
    }
  }

  /** atoi reads a run of digits back as its value, whatever non-digit text follows it. */
  lemma AtoiDigits(ds: string, rest: string)
    requires |ds| > 0 && AllDigits(ds) && (rest == [] || !IsDigit(rest[0]))
    ensures Atoi(ds + rest) == NatValue(ds)
  {
    var t := ds + rest;
    assert t[0] == ds[0];
    assert IsDigit(t[0]);
    assert SkipSpaces(t) == t;
    LeadingAllDigits(ds, rest);
    assert Atoi(t) == NatValue(LeadingDigits(t));
  }

  /** atoi reads a minus sign followed by digits back as the negated value. */
  lemma AtoiNegative(ds: string)
    requires AllDigits(ds)
    ensures Atoi("-" + ds) == -(NatValue(ds) as int)
  {
    var t := "-" + ds;
    assert t[0] == '-';
    assert SkipSpaces(t) == t;
    assert t[1..] == ds + [];
    LeadingAllDigits(ds, []);
  }

  /** Printing with `%d` and reading back with atoi gives the number back. */
  lemma AtoiDecimal(n: int)
    ensures Atoi(Decimal(n)) == n
  {
    if n < 0 {
      AtoiNegative(NatString(-n));
      NatStringValue(-n);
    } else {
      AtoiDigits(NatString(n), []);
      assert NatString(n) + [] == NatString(n);
      NatStringValue(n);
    }
  }

  /** Leading zeros do not change the value of a digit string. */
  lemma {:induction false} LeadingZero(ds: string)
    requires AllDigits(ds)
    ensures AllDigits("0" + ds) && NatValue("0" + ds) == NatValue(ds)
    decreases |ds|
  {
    if ds != [] {
      assert ("0" + ds)[..|ds|] == "0" + ds[..|ds| - 1];
      LeadingZero(ds[..|ds| - 1]);
    }
  }

  /** snprintf into a buffer of n + 1 bytes keeps at most the first n characters. */
  function Truncate(s: string, n: nat): (t: string)
    ensures t <= s && |t| == if |s| <= n then |s| else n
  {
    if |s| <= n then s else s[..n]
  }
}
