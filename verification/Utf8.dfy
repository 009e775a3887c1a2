/** Cutting a string to a byte limit without splitting a UTF-8 character (engine/p8_core.hpp). */
module Utf8 {
  import opened Bytes

  /** A continuation byte, UTF8-tail in section 4 of RFC 3629. */
  predicate Tail(b: byte) {
    0x80 <= b < 0xC0
  }

  /** Length of the character that starts `s`, or 0 when none of the forms of section 4 of RFC 3629 matches. */
  function CharLen(s: seq<byte>): (n: nat)
    ensures n <= |s| && n <= 4
  {
    if |s| >= 1 && s[0] <= 0x7F then 1
    else if |s| >= 2 && 0xC2 <= s[0] <= 0xDF && Tail(s[1]) then 2
    else if |s| >= 3 && 0xE0 <= s[0] <= 0xEF && Tail(s[1]) && Tail(s[2])
            && (s[0] == 0xE0 ==> s[1] >= 0xA0) && (s[0] == 0xED ==> s[1] <= 0x9F) then 3
    else if |s| >= 4 && 0xF0 <= s[0] <= 0xF4 && Tail(s[1]) && Tail(s[2]) && Tail(s[3])
            && (s[0] == 0xF0 ==> s[1] >= 0x90) && (s[0] == 0xF4 ==> s[1] <= 0x8F) then 4
    else 0
  }

  predicate WellFormed(s: seq<byte>) {
    s == [] || (CharLen(s) > 0 && WellFormed(s[CharLen(s)..]))
  }

  /** Where the search of `CutUtf8` from `n` downwards stops. */
  function CutAt(s: seq<byte>, n: nat): (r: nat)
    requires n < |s|
    ensures r <= n && (r == 0 || !Tail(s[r]))
    ensures forall m :: r < m <= n ==> Tail(s[m])
  {
    if n > 0 && Tail(s[n]) then CutAt(s, n - 1) else n
  }

  method CutUtf8(s: seq<byte>, limit: nat) returns (len: nat)
    requires limit < |s|
    ensures len == CutAt(s, limit)
  {
    len := limit;
    while len > 0 && Tail(s[len])
      invariant len < |s| && CutAt(s, len) == CutAt(s, limit)
    {
      len := len - 1;
    }
  }

  /** In well-formed text a proper prefix is well-formed exactly when it does not end before a continuation byte. */
  lemma {:induction false} PrefixBoundary(s: seq<byte>, m: nat)
    requires WellFormed(s) && m < |s|
    ensures WellFormed(s[..m]) <==> !Tail(s[m])
    decreases |s|
  {
    if m > 0 {
      var n := CharLen(s);
      var t := s[..m];
      if m < n {
        assert Tail(s[m]);
        assert CharLen(t) == 0;
      } else {
        assert CharLen(t) == n;
        assert t[n..] == s[n..][..m - n];
        PrefixBoundary(s[n..], m - n);
      }
    }
  }

  /** The cut of well-formed text is its longest well-formed prefix within the limit. */
  lemma {:induction false} CutIsLongest(s: seq<byte>, limit: nat)
    requires WellFormed(s) && limit < |s|
    ensures WellFormed(s[..CutAt(s, limit)])
    ensures forall m :: CutAt(s, limit) < m <= limit ==> !WellFormed(s[..m])
  {
    var r := CutAt(s, limit);
    if r > 0 {
      PrefixBoundary(s, r);
    }
    forall m | r < m <= limit ensures !WellFormed(s[..m]) {
      PrefixBoundary(s, m);
    }
  }
}
