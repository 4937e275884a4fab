/** Strings that end at their first zero byte, and the bounded copy of the secure C library. */
module CString {
  import opened Common

  /** The bytes before the first zero. */
  function CStr(b: Bytes): (s: Bytes)
    ensures |s| <= |b| && s == b[..|s|] && (|s| < |b| ==> b[|s|] == 0) && NoNul(s)
  {
    if b == [] || b[0] == 0 then [] else [b[0]] + CStr(b[1..])
  }

  predicate NoNul(s: Bytes) {
    forall k :: 0 <= k < |s| ==> s[k] != 0
  }

  /** A buffer that holds a string. */
  predicate HasStr(b: Bytes) {
    |CStr(b)| < |b|
  }

  lemma {:induction false} CStrIs(b: Bytes, s: Bytes)
    requires |s| <= |b| && s == b[..|s|] && (|s| < |b| ==> b[|s|] == 0) && NoNul(s)
    ensures CStr(b) == s && (|s| < |b| ==> HasStr(b))
  {
    if s == [] {
    } else {
      assert b[1..][..|s| - 1] == s[1..];
      CStrIs(b[1..], s[1..]);
    }
  }

  /** What a buffer is after a string was copied to a place in it with its closing zero. */
  function Copied(b: Bytes, at: nat, s: Bytes): (r: Bytes)
    requires at + |s| < |b|
    ensures |r| == |b|
  {
    b[..at] + s + [0] + b[at + |s| + 1..]
  }

  method StrLen(buf: array<Byte>) returns (n: nat)
    requires HasStr(buf[..])
    ensures n == |CStr(buf[..])| && n < buf.Length
  {
    ghost var s := CStr(buf[..]);
    n := 0;
    while buf[n] != 0
      invariant n <= |s|
      decreases buf.Length - n
    {
      n := n + 1;
    }
  }

  /** strcpy_s to a place in a buffer where there is room for that many bytes: a string that does not fit
      leaves the empty string there, if there is any room at all. */
  method StrCpyS(buf: array<Byte>, at: nat, room: nat, s: Bytes) returns (ok: bool)
    requires at + room <= buf.Length
    modifies buf
    ensures ok <==> |s| < room
    ensures ok ==> buf[..] == Copied(old(buf[..]), at, s)
    ensures !ok ==> buf[..] == if room == 0 then old(buf[..]) else old(buf[..])[at := 0]
  {
    if room == 0 {
      return false;
    }
    if |s| >= room {
      buf[at] := 0;
      return false;
    }
    for k := 0 to |s|
      invariant forall j :: 0 <= j < k ==> buf[at + j] == s[j]
      invariant forall j :: 0 <= j < buf.Length && !(at <= j < at + k) ==> buf[j] == old(buf[j])
    {
      buf[at + k] := s[k];
    }
    buf[at + |s|] := 0;
    ok := true;
  }
}
