/** Masking of identifiers, serial numbers and names: dfx_anonymize.c over the splice of utils_common.c. */
module Anonymize {
  import opened Common
  import opened CString

  const INT32_MAX := 0x7FFF_FFFF
  const STAR: Bytes := [42]

  // ----- replacing a range of a string -----

  function Splice(s: Bytes, start: nat, end: nat, put: Bytes): Bytes
    requires start <= end < |s|
  {
    s[..start] + put + s[end + 1..]
  }

  /** Arguments with which a string of some length can be spliced within its buffer. */
  predicate Spliceable(len: nat, bufLen: nat, start: int, end: int, put: nat) {
    0 <= start <= end < len < bufLen && start + put + (len - 1 - end) < bufLen
  }

  /** The string was copied to the buffer, then what is put in, and then, if there is one, the tail. */
  lemma SpliceBuilt(b: Bytes, s: Bytes, start: nat, end: nat, put: Bytes)
    requires start <= end < |s| < |b| && start + |put| < |b| && |Splice(s, start, end, put)| < |b|
    ensures var r, t := Splice(s, start, end, put), Copied(Copied(b, 0, s), start, put);
      var t' := if end < |s| - 1 then Copied(t, start + |put|, s[end + 1..]) else t;
      t'[..|r|] == r && t'[|r|] == 0
  {
    var t := Copied(Copied(b, 0, s), start, put);
    assert t[..start + |put|] == s[..start] + put;
    if end < |s| - 1 {
      var t' := Copied(t, start + |put|, s[end + 1..]);
      assert t'[..start + |put|] == t[..start + |put|];
    } else {
      assert s[end + 1..] == [];
    }
  }

  lemma SpliceNoNul(s: Bytes, start: nat, end: nat, put: Bytes)
    requires start <= end < |s| && NoNul(s) && NoNul(put)
    ensures NoNul(Splice(s, start, end, put))
  {}

  lemma CopiedStr(b: Bytes, s: Bytes)
    requires |s| < |b| && NoNul(s)
    ensures CStr(Copied(b, 0, s)) == s && HasStr(Copied(b, 0, s))
  {
    CStrIs(Copied(b, 0, s), s);
  }

  /** Builds the spliced string in a buffer of its own. */
  method BuildSplice(tmp: array<Byte>, str: Bytes, start: nat, end: nat, put: Bytes) returns (ok: bool)
    requires start <= end < |str|
    modifies tmp
    ensures ok <==> Spliceable(|str|, tmp.Length, start, end, |put|)
    ensures ok ==> var r := Splice(str, start, end, put); tmp[..|r|] == r
  {
    ghost var b := tmp[..];
    ok := StrCpyS(tmp, 0, tmp.Length, str);
    if !ok {
      return;
    }
    var tail := str[end + 1..];
    ok := StrCpyS(tmp, start, tmp.Length - start, put);
    if !ok {
      return;
    }
    if end < |str| - 1 {
      ok := StrCpyS(tmp, start + |put|, tmp.Length - start - |put|, tail);
      if !ok {
        return;
      }
    }
    SpliceBuilt(b, str, start, end, put);
    assert |Splice(str, start, end, put)| == start + |put| + |tail|;
  }

  /** UtilsReplaceStrWithRange: the string between the two places, both included, is replaced, or nothing
      is changed. */
  method ReplaceStrWithRange(buf: array<Byte>, bufLen: nat, start: int, end: int, put: Bytes) returns (ok: bool)
    requires HasStr(buf[..]) && bufLen <= buf.Length && NoNul(put)
    modifies buf
    ensures ok <==> Spliceable(|CStr(old(buf[..]))|, bufLen, start, end, |put|)
    ensures ok ==> HasStr(buf[..]) && CStr(buf[..]) == Splice(CStr(old(buf[..])), start, end, put)
    ensures !ok ==> buf[..] == old(buf[..])
  {
    if bufLen == 0 || start < 0 || end < 0 || start > end {
      return false;
    }
    var len := StrLen(buf);
    if end >= len {
      return false;
    }
    var str := buf[..len];
    assert str == CStr(buf[..]);
    var tmp := new Byte[bufLen];
    ok := BuildSplice(tmp, str, start, end, put);
    if ok {
      ghost var r := Splice(str, start, end, put);
      var copied := StrCpyS(buf, 0, bufLen, tmp[..len - (end + 1 - start) + |put|]);
      SpliceNoNul(str, start, end, put);
      CopiedStr(old(buf[..]), r);
    }
  }

  // ----- which part of a string is hidden -----

  datatype Kind = Id | Sn | Name

  /** The places of the first and the last character hidden in a string of some length. */
  datatype Range = Range(first: int, last: int)

  function Hidden(kind: Kind, len: nat): (r: Range)
    requires len > 0
    ensures 0 <= r.first <= r.last < len
  {
    match kind
    case Id =>
      if len == 1 then Range(0, 0)
      else if len <= 3 then Range(1, len - 1)
      else if len <= 5 then Range(2, len - 1)
      else if len <= 10 then Range(4, len - 1)
      else if len == 11 then Range(3, 6)
      else if len <= 18 then Range(6, len - 1)
      else Range(10, len - 1)
    case Sn =>
      if len <= 5 then Range(0, len - 1) else if len <= 12 then Range(2, len - 3) else Range(3, len - 4)
    case Name =>
      if len == 1 then Range(0, 0)
      else if len <= 3 then Range(1, 1)
      else if len <= 5 then Range(1, 2)
      else Range(2, 2 + len / 3)
  }

  function Masked(kind: Kind, s: Bytes): Bytes
    requires s != []
  {
    var h := Hidden(kind, |s|);
    Splice(s, h.first, h.last, STAR)
  }

  /** A masked string is no longer than the original, and has its front, one star and its end. */
  lemma MaskedShape(kind: Kind, s: Bytes)
    requires s != []
    ensures var h := Hidden(kind, |s|);
      && |Masked(kind, s)| == |s| - (h.last - h.first) <= |s|
      && Masked(kind, s)[h.first] == STAR[0]
      && Masked(kind, s)[..h.first] == s[..h.first]
      && Masked(kind, s)[h.first + 1..] == s[h.last + 1..]
  {}

  /** Two strings of the same length look the same when masked if and only if they agree on every
      character that is not hidden: nothing of what is hidden shows, and all of the rest does. */
  lemma MaskedSame(kind: Kind, s: Bytes, t: Bytes)
    requires s != [] && |s| == |t|
    ensures var h := Hidden(kind, |s|);
      Masked(kind, s) == Masked(kind, t) <==> forall k :: 0 <= k < |s| && !(h.first <= k <= h.last) ==> s[k] == t[k]
  {
    var h := Hidden(kind, |s|);
    var m, n := Masked(kind, s), Masked(kind, t);
    if m == n {
      forall k | 0 <= k < |s| && !(h.first <= k <= h.last) ensures s[k] == t[k] {
        var j := if k < h.first then k else k - (h.last - h.first);
        assert m[j] == s[k] && n[j] == t[k];
      }
    } else {
      if s[..h.first] == t[..h.first] { assert s[h.last + 1..] != t[h.last + 1..]; }
    }
  }

  // ----- the rule tables -----

  /** A rule for some lengths; a negative place counts from the end of the string. */
  datatype Rule = Rule(lower: int, upper: int, start: int, end: int)

  const ID_RULES: seq<Rule> := [
    Rule(1, 1, 0, 0), Rule(2, 3, 1, -1), Rule(4, 5, 2, -1), Rule(6, 10, 4, -1), Rule(11, 11, 3, 6), Rule(12, 18, 6, -1),
    Rule(19, INT32_MAX, 10, -1)]
  const SN_RULES: seq<Rule> := [Rule(1, 5, 0, -1), Rule(6, 12, 2, -3), Rule(13, INT32_MAX, 3, -4)]
  const NAME_RULES: seq<Rule> := [Rule(1, 1, 0, -1), Rule(2, 3, 1, 1), Rule(4, 5, 1, 2)]

  const NAME_LONG := 6

  function Rules(kind: Kind): seq<Rule> {
    match kind
    case Id => ID_RULES
    case Sn => SN_RULES
    case Name => NAME_RULES
  }

  predicate Applies(rule: Rule, len: int) {
    rule.lower <= len <= rule.upper
  }

  function Place(place: int, len: int): int {
    if place >= 0 then place else len + place
  }

  /** The rule of a table that is the only one to apply to a length. */
  predicate OnlyRule(rules: seq<Rule>, i: nat, len: nat) {
    i < |rules| && forall k :: 0 <= k < |rules| ==> (Applies(rules[k], len) <==> k == i)
  }

  lemma IdTable(len: nat) returns (i: nat)
    requires 0 < len <= INT32_MAX
    ensures OnlyRule(ID_RULES, i, len)
    ensures Hidden(Id, len) == Range(Place(ID_RULES[i].start, len), Place(ID_RULES[i].end, len))
  {
    i := if len == 1 then 0 else if len <= 3 then 1 else if len <= 5 then 2 else if len <= 10 then 3
         else if len == 11 then 4 else if len <= 18 then 5 else 6;
  }

  lemma SnTable(len: nat) returns (i: nat)
    requires 0 < len <= INT32_MAX
    ensures OnlyRule(SN_RULES, i, len)
    ensures Hidden(Sn, len) == Range(Place(SN_RULES[i].start, len), Place(SN_RULES[i].end, len))
  {
    i := if len <= 5 then 0 else if len <= 12 then 1 else 2;
  }

  lemma NameTable(len: nat) returns (i: nat)
    requires 0 < len < NAME_LONG
    ensures OnlyRule(NAME_RULES, i, len)
    ensures Hidden(Name, len) == Range(Place(NAME_RULES[i].start, len), Place(NAME_RULES[i].end, len))
  {
    i := if len == 1 then 0 else if len <= 3 then 1 else 2;
  }

  /** For every length that the tables are used for exactly one rule applies, and it hides the right part. */
  lemma TableIs(kind: Kind, len: nat) returns (i: nat)
    requires 0 < len <= INT32_MAX && (kind.Name? ==> len < NAME_LONG)
    ensures OnlyRule(Rules(kind), i, len)
    ensures Hidden(kind, len) == Range(Place(Rules(kind)[i].start, len), Place(Rules(kind)[i].end, len))
  {
    match kind
    case Id => i := IdTable(len);
    case Sn => i := SnTable(len);
    case Name => i := NameTable(len);
  }

  /** AnonymizeStrWithRule. */
  method AnonymizeWithRules(buf: array<Byte>, bufLen: nat, kind: Kind) returns (ok: bool)
    requires HasStr(buf[..]) && bufLen <= buf.Length <= INT32_MAX
    requires kind.Name? ==> |CStr(buf[..])| < NAME_LONG
    modifies buf
    ensures ok <==> 0 < |CStr(old(buf[..]))| < bufLen
    ensures ok ==> HasStr(buf[..]) && CStr(buf[..]) == Masked(kind, CStr(old(buf[..])))
    ensures !ok ==> buf[..] == old(buf[..])
  {
    var len := StrLen(buf);
    var rules := Rules(kind);
    ghost var only := 0;
    if len > 0 { only := TableIs(kind, len); }
    for i := 0 to |rules|
      invariant forall k :: 0 <= k < i ==> !Applies(rules[k], len)
      invariant buf[..] == old(buf[..])
    {
      if rules[i].lower <= len <= rules[i].upper {
        assert Applies(rules[i], len);
        ok := ReplaceStrWithRange(buf, bufLen, Place(rules[i].start, len), Place(rules[i].end, len), STAR);
        return;
      }
    }
    ok := false;
  }

  method AnonymizeName(buf: array<Byte>, bufLen: nat) returns (ok: bool)
    requires HasStr(buf[..]) && bufLen <= buf.Length <= INT32_MAX
    modifies buf
    ensures ok <==> 0 < |CStr(old(buf[..]))| < bufLen
    ensures ok ==> HasStr(buf[..]) && CStr(buf[..]) == Masked(Name, CStr(old(buf[..])))
    ensures !ok ==> buf[..] == old(buf[..])
  {
    var len := StrLen(buf);
    if len >= NAME_LONG {
      ok := ReplaceStrWithRange(buf, bufLen, 2, 2 + len / 3, STAR);
    } else {
      ok := AnonymizeWithRules(buf, bufLen, Name);
    }
  }

  /** DfxAnonymizeStrWithBuffer for these kinds: the masked string is put in the destination, which may be
      where the source is; it succeeds for every non-empty string that fits. */
  method AnonymizeStr(src: array<Byte>, kind: Kind, dst: array<Byte>, bufLen: nat) returns (ok: bool)
    requires HasStr(src[..]) && bufLen <= dst.Length <= INT32_MAX
    modifies dst
    ensures ok <==> 0 < |CStr(old(src[..]))| < bufLen
    ensures ok ==> HasStr(dst[..]) && CStr(dst[..]) == Masked(kind, CStr(old(src[..])))
  {
    if bufLen == 0 {
      return false;
    }
    if src != dst {
      var len := StrLen(src);
      ok := StrCpyS(dst, 0, bufLen, src[..len]);
      if !ok {
        return;
      }
      CopiedStr(old(dst[..]), src[..len]);
    }
    if kind.Name? {
      ok := AnonymizeName(dst, bufLen);
    } else {
      ok := AnonymizeWithRules(dst, bufLen, kind);
    }
  }
}
