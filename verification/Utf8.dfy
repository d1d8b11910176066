/** Truncating serialized JSON at a byte limit without splitting a character. */
module Utf8 {
  import opened Options

  type Bytes = seq<bv8>

  // ---- well-formed UTF-8 (section 4 of RFC 3629) ----

  predicate Continuation(b: bv8) {
    b & 0xC0 == 0x80
  }

  predicate Within(b: bv8, lo: bv8, hi: bv8) {
    lo <= b <= hi
  }

  predicate Two(s: Bytes) {
    |s| >= 2 && Within(s[0], 0xC2, 0xDF) && Continuation(s[1])
  }

  predicate Three(s: Bytes) {
    && |s| >= 3 && Continuation(s[1]) && Continuation(s[2])
    && (|| (s[0] == 0xE0 && s[1] >= 0xA0)
        || Within(s[0], 0xE1, 0xEC)
        || (s[0] == 0xED && s[1] <= 0x9F)
        || Within(s[0], 0xEE, 0xEF))
  }

  predicate Four(s: Bytes) {
    && |s| >= 4 && Continuation(s[1]) && Continuation(s[2]) && Continuation(s[3])
    && (|| (s[0] == 0xF0 && s[1] >= 0x90)
        || Within(s[0], 0xF1, 0xF3)
        || (s[0] == 0xF4 && s[1] <= 0x8F))
  }

  /** The length of the character at the front; 0: there is none. */
  function First(s: Bytes): (n: nat)
    ensures n <= |s| && n <= 4
    ensures n > 0 ==> !Continuation(s[0]) && forall i :: 0 < i < n ==> Continuation(s[i])
  {
    if |s| >= 1 && s[0] <= 0x7F then 1 else if Two(s) then 2 else if Three(s) then 3 else if Four(s) then 4 else 0
  }

  predicate Valid(s: Bytes)
    decreases |s|
  {
    s == [] || (First(s) > 0 && Valid(s[First(s)..]))
  }

  lemma FirstOfPrefix(s: Bytes, j: nat)
    requires First(s) > 0 && First(s) <= j <= |s|
    ensures First(s[..j]) == First(s)
  {
  }

  lemma {:induction false} ValidConcat(s: Bytes, t: Bytes)
    requires Valid(s) && Valid(t)
    ensures Valid(s + t)
    decreases |s|
  {
    if s == [] {
      assert s + t == t;
    } else {
      var n := First(s);
      assert First(s + t) == First(s) && (s + t)[First(s)..] == s[First(s)..] + t;
      ValidConcat(s[n..], t);
    }
  }

  /** In valid text a prefix is valid if and only if it does not end before a
      continuation byte. */
  lemma {:induction false} PrefixValidIff(s: Bytes, j: nat)
    requires Valid(s) && j <= |s|
    ensures Valid(s[..j]) <==> j == |s| || !Continuation(s[j])
    decreases |s|
  {
    if j == |s| {
      assert s[..j] == s;
    } else if j > 0 {
      var n := First(s);
      if n <= j {
        FirstOfPrefix(s, j);
        PrefixValidIff(s[n..], j - n);
        assert s[..j][n..] == s[n..][..j - n];
      } else {
        ShortPrefix(s, j);
      }
    }
  }

  lemma ShortPrefix(s: Bytes, j: nat)
    requires 0 < j < First(s)
    ensures First(s[..j]) == 0 && !Valid(s[..j])
  {
  }

  /** No four continuation bytes follow each other. */
  lemma {:induction false} FewContinuations(s: Bytes, i: nat)
    requires Valid(s) && i < |s|
    ensures !Continuation(s[i]) || (i > 0 && !Continuation(s[i - 1]))
            || (i > 1 && !Continuation(s[i - 2])) || (i > 2 && !Continuation(s[i - 3]))
    decreases |s|
  {
    var n := First(s);
    if i >= n { FewContinuations(s[n..], i - n); }
  }

  // ---- truncation ----

  datatype Outcome = Panic | Text(bytes: Bytes)

  const DOTS: Bytes := [0x2E, 0x2E, 0x2E]

  /** "<unserializable>" */
  const UNSERIALIZABLE: Bytes :=
    [0x3C, 0x75, 0x6E, 0x73, 0x65, 0x72, 0x69, 0x61, 0x6C, 0x69, 0x7A, 0x61, 0x62, 0x6C, 0x65, 0x3E]

  /** Is `cut` the longest valid prefix of `s` of at most `limit` bytes? */
  ghost predicate LongestValid(s: Bytes, limit: nat, cut: nat) {
    && cut <= limit && cut <= |s| && Valid(s[..cut])
    && forall j :: cut < j <= limit && j <= |s| ==> !Valid(s[..j])
  }

  /** There is only one. */
  lemma LongestOnce(s: Bytes, limit: nat, cut: nat, other: nat)
    requires LongestValid(s, limit, cut) && LongestValid(s, limit, other)
    ensures cut == other
  {
  }

  /** `json` is None when marshalling fails. Text that is too long loses at most
      three bytes more than the dots need; a limit below 3 makes the slice bound
      negative; and the text for a failed marshalling ignores the limit. */
  method SafeSerialize(json: Option<Bytes>, maxBytes: int) returns (r: Outcome)
    requires json.Some? ==> Valid(json.value)
    ensures r == Panic <==> json.Some? && |json.value| > maxBytes && maxBytes < 3
    ensures r.Text? && json.Some? ==> Valid(r.bytes) && |r.bytes| <= maxBytes
    ensures r.Text? && json.Some? && |json.value| <= maxBytes ==> r.bytes == json.value
    ensures r.Text? && json.Some? && |json.value| > maxBytes ==>
              maxBytes >= 3 && exists cut: nat :: LongestValid(json.value, maxBytes - 3, cut)
                                                  && r.bytes == json.value[..cut] + DOTS && cut >= maxBytes - 6
    ensures json.None? ==> r == Text(UNSERIALIZABLE)
    ensures r.Text? ==> (|r.bytes| <= maxBytes <==> json.Some? || maxBytes >= 16)
  {
    if json.None? { return Text(UNSERIALIZABLE); }
    var b := json.value;
    if |b| <= maxBytes { return Text(b); }
    var cut := maxBytes - 3;
    while cut > 0 && cut < |b| && Continuation(b[cut])
      invariant cut <= maxBytes - 3 && (maxBytes >= 3 ==> cut >= 0)
      invariant maxBytes < 3 ==> cut == maxBytes - 3
      invariant forall j :: cut < j <= maxBytes - 3 && j >= 0 ==> Continuation(b[j])
      decreases cut
    {
      cut := cut - 1;
    }
    if cut < 0 { return Panic; }
    LongestAt(b, maxBytes - 3, cut);
    assert Valid(DOTS) by { DotsValid(); }
    ValidConcat(b[..cut], DOTS);
    r := Text(b[..cut] + DOTS);
  }

  lemma DotsValid()
    ensures Valid(DOTS)
  {
  }

  lemma LongestAt(s: Bytes, limit: nat, cut: nat)
    requires Valid(s) && cut <= limit < |s| && !Continuation(s[cut])
    requires forall j :: cut < j <= limit ==> Continuation(s[j])
    ensures LongestValid(s, limit, cut) && cut >= limit - 3
  {
    PrefixValidIff(s, cut);
    forall j | cut < j <= limit ensures !Valid(s[..j]) {
      PrefixValidIff(s, j);
    }
    FewContinuations(s, limit);
  }
}
