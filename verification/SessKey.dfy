/** The session key cache of security_sess_key.c. */
module SessKey {
  import opened Common

  const SN_LEN := 8
  const TRANS_KEY_LEN := 16
  const AUTH_KEY_LEN := 32

  /** PBKDF2 with HMAC-SHA256 and one iteration, section 5.2 of RFC 8018: password, salt and length. */
  type Kdf = (Bytes, Bytes, nat) -> Bytes

  ghost predicate Lawful(kdf: Kdf) {
    forall pwd, salt, n :: |kdf(pwd, salt, n)| == n
  }

  datatype SnType = Sn1 | Sn2

  datatype Error = ParamInvalid | NotReady | KdfFailed

  /** The four bits of the bit map, both serial numbers in one array, and the two keys. */
  datatype Context = Context(
    hasTrans: bool, hasAuth: bool, hasSn1: bool, hasSn2: bool, sn: Bytes, transKey: Bytes, authKey: Bytes)

  const INITIAL := Context(false, false, false, false, Zeros(2 * SN_LEN), Zeros(TRANS_KEY_LEN), Zeros(AUTH_KEY_LEN))

  datatype Op =
    | AddSn(sn: Bytes, which: SnType)
    | GenTrans(pwd: Option<Bytes>, fails: bool)   // fails: the key derivation reports an error
    | GenAuth(fails: bool)

  predicate Legal(op: Op) {
    op.AddSn? ==> |op.sn| == SN_LEN
  }

  predicate Sized(s: Context) {
    |s.sn| == 2 * SN_LEN && |s.transKey| == TRANS_KEY_LEN && |s.authKey| == AUTH_KEY_LEN
  }

  /** Forgets the keys that were made. */
  function ParamUpdate(s: Context): Context {
    var s1 := if s.hasTrans then s.(transKey := Zeros(TRANS_KEY_LEN), hasTrans := false) else s;
    if s1.hasAuth then s1.(authKey := Zeros(AUTH_KEY_LEN), hasAuth := false) else s1
  }

  function PutSn(s: Context, sn: Bytes, which: SnType): Context
    requires Sized(s) && |sn| == SN_LEN
  {
    s.(sn := if which.Sn1? then sn + s.sn[SN_LEN..] else s.sn[..SN_LEN] + sn)
  }

  /** The next context and what the caller gets. */
  function Step(kdf: Kdf, s: Context, op: Op): (Context, Result<Bytes, Error>)
    requires Sized(s) && Legal(op)
  {
    match op
    case AddSn(sn, which) =>
      var t := ParamUpdate(PutSn(s, sn, which));
      (if which.Sn1? then t.(hasSn1 := true) else t.(hasSn2 := true), Ok([]))
    case GenTrans(pwd, fails) =>
      if pwd.None? || pwd.value == [] then (s, Err(ParamInvalid))
      else if s.hasTrans then (s, Ok(s.transKey))
      else if !s.hasSn1 || !s.hasSn2 then (s, Err(NotReady))
      else
        var t := ParamUpdate(s);
        if fails then (t, Err(KdfFailed))
        else
          var key := kdf(pwd.value, t.sn, TRANS_KEY_LEN);
          (t.(transKey := key, hasTrans := true), Ok(key))
    case GenAuth(fails) =>
      if s.hasAuth then (s, Ok(s.authKey))
      else if !s.hasSn1 || !s.hasSn2 || !s.hasTrans then (s, Err(NotReady))
      else if fails then (s, Err(KdfFailed))
      else
        var key := kdf(s.transKey, s.sn, AUTH_KEY_LEN);
        (s.(authKey := key, hasAuth := true), Ok(key))
  }

  // ----- what the keys are, from the history alone -----

  /** The serial number last set. */
  function SnOf(ops: seq<Op>, which: SnType): Option<Bytes> {
    if ops == [] then None
    else
      var last := ops[|ops| - 1];
      if last.AddSn? && last.which == which then Some(last.sn) else SnOf(ops[..|ops| - 1], which)
  }

  /** The password of the first derivation that succeeded since a serial number was last set. */
  function PwdOf(ops: seq<Op>): Option<Bytes> {
    if ops == [] then None
    else
      var front, last := ops[..|ops| - 1], ops[|ops| - 1];
      match last
      case AddSn(_, _) => None
      case GenTrans(pwd, fails) =>
        if PwdOf(front).Some? then PwdOf(front)
        else if pwd.Some? && pwd.value != [] && !fails && SnOf(front, Sn1).Some? && SnOf(front, Sn2).Some? then pwd
        else None
      case GenAuth(_) => PwdOf(front)
  }

  /** An auth key has been derived since a serial number was last set. */
  predicate AuthMade(ops: seq<Op>) {
    && ops != []
    && var front, last := ops[..|ops| - 1], ops[|ops| - 1];
       !last.AddSn? && (AuthMade(front) || (last.GenAuth? && !last.fails && PwdOf(front).Some?))
  }

  function SnBytes(sn: Option<Bytes>): Bytes {
    if sn.Some? then sn.value else Zeros(SN_LEN)
  }

  function Salt(ops: seq<Op>): Bytes {
    SnBytes(SnOf(ops, Sn1)) + SnBytes(SnOf(ops, Sn2))
  }

  predicate AllLegal(ops: seq<Op>) {
    forall k :: 0 <= k < |ops| ==> Legal(ops[k])
  }

  /** The context that a history should lead to. */
  function Expected(kdf: Kdf, ops: seq<Op>): Context {
    var trans := if PwdOf(ops).Some? then kdf(PwdOf(ops).value, Salt(ops), TRANS_KEY_LEN) else Zeros(TRANS_KEY_LEN);
    Context(PwdOf(ops).Some?, AuthMade(ops), SnOf(ops, Sn1).Some?, SnOf(ops, Sn2).Some?, Salt(ops), trans,
            if AuthMade(ops) then kdf(trans, Salt(ops), AUTH_KEY_LEN) else Zeros(AUTH_KEY_LEN))
  }

  lemma {:induction false} SnSized(ops: seq<Op>, which: SnType)
    requires AllLegal(ops)
    ensures |SnBytes(SnOf(ops, which))| == SN_LEN
  {
    if ops == [] {
    } else {
      assert Legal(ops[|ops| - 1]);
      SnSized(ops[..|ops| - 1], which);
    }
  }

  /** An auth key needs a trans key, and a trans key both serial numbers. */
  lemma {:induction false} Needs(ops: seq<Op>)
    ensures AuthMade(ops) ==> PwdOf(ops).Some?
    ensures PwdOf(ops).Some? ==> SnOf(ops, Sn1).Some? && SnOf(ops, Sn2).Some?
  {
    if ops == [] {
    } else {
      Needs(ops[..|ops| - 1]);
    }
  }

  lemma ExpectedSized(kdf: Kdf, ops: seq<Op>)
    requires Lawful(kdf) && AllLegal(ops)
    ensures Sized(Expected(kdf, ops))
  {
    SnSized(ops, Sn1);
    SnSized(ops, Sn2);
  }

  lemma SaltStep(ops: seq<Op>, last: Op)
    requires AllLegal(ops) && Legal(last)
    ensures |Salt(ops)| == 2 * SN_LEN
    ensures var all := ops + [last];
      Salt(all) == if !last.AddSn? then Salt(ops)
                   else if last.which.Sn1? then last.sn + Salt(ops)[SN_LEN..] else Salt(ops)[..SN_LEN] + last.sn
  {
    assert (ops + [last])[..|ops|] == ops;
    SnSized(ops, Sn1);
    SnSized(ops, Sn2);
  }

  /** A request for the trans key that makes one. */
  predicate MakesKey(ops: seq<Op>, last: Op)
    requires last.GenTrans?
  {
    && PwdOf(ops).None? && last.pwd.Some? && last.pwd.value != [] && !last.fails
    && SnOf(ops, Sn1).Some? && SnOf(ops, Sn2).Some?
  }

  /** What one more operation does to the history. */
  lemma HistoryStep(ops: seq<Op>, last: Op)
    ensures var all := ops + [last];
      && (forall w :: SnOf(all, w) == if last.AddSn? && last.which == w then Some(last.sn) else SnOf(ops, w))
      && (last.AddSn? ==> PwdOf(all).None? && !AuthMade(all))
      && (last.GenTrans? ==> AuthMade(all) == AuthMade(ops))
      && (last.GenTrans? ==> PwdOf(all) == if MakesKey(ops, last) then last.pwd else PwdOf(ops))
      && (last.GenAuth? ==>
            PwdOf(all) == PwdOf(ops) && AuthMade(all) == (AuthMade(ops) || (!last.fails && PwdOf(ops).Some?)))
  {
    assert (ops + [last])[..|ops|] == ops;
  }

  lemma ExpectedAddSn(kdf: Kdf, ops: seq<Op>, last: Op)
    requires AllLegal(ops) && Legal(last) && last.AddSn? && Sized(Expected(kdf, ops))
    ensures Step(kdf, Expected(kdf, ops), last).0 == Expected(kdf, ops + [last])
  {
    HistoryStep(ops, last);
    SaltStep(ops, last);
  }

  lemma ExpectedGen(kdf: Kdf, ops: seq<Op>, last: Op)
    requires AllLegal(ops) && !last.AddSn? && Sized(Expected(kdf, ops))
    ensures Step(kdf, Expected(kdf, ops), last).0 == Expected(kdf, ops + [last])
  {
    HistoryStep(ops, last);
    SaltStep(ops, last);
    Needs(ops);
  }

  lemma ExpectedStep(kdf: Kdf, ops: seq<Op>, last: Op)
    requires AllLegal(ops) && Legal(last) && Sized(Expected(kdf, ops))
    ensures Step(kdf, Expected(kdf, ops), last).0 == Expected(kdf, ops + [last])
  {
    if last.AddSn? { ExpectedAddSn(kdf, ops, last); } else { ExpectedGen(kdf, ops, last); }
  }

  function StepAll(kdf: Kdf, ops: seq<Op>): Context {
    if ops == [] then INITIAL
    else
      var s, last := StepAll(kdf, ops[..|ops| - 1]), ops[|ops| - 1];
      if Sized(s) && Legal(last) then Step(kdf, s, last).0 else s
  }

  lemma StepAllStep(kdf: Kdf, ops: seq<Op>, last: Op)
    requires Sized(StepAll(kdf, ops)) && Legal(last)
    ensures StepAll(kdf, ops + [last]) == Step(kdf, StepAll(kdf, ops), last).0
  {
    assert (ops + [last])[..|ops|] == ops;
  }

  lemma StartExpected(kdf: Kdf)
    ensures StepAll(kdf, []) == Expected(kdf, [])
  {
    assert Zeros(2 * SN_LEN) == Zeros(SN_LEN) + Zeros(SN_LEN);
  }

  /** In every reachable state the bits and the keys are what the history says: a trans key that is set
      is that of the password that made it over the serial numbers now set, an auth key that is set is
      that of this trans key over them, and a key that is not set is zero. */
  lemma {:induction false} Reachable(kdf: Kdf, ops: seq<Op>)
    requires Lawful(kdf) && AllLegal(ops)
    ensures StepAll(kdf, ops) == Expected(kdf, ops) && Sized(Expected(kdf, ops))
  {
    ExpectedSized(kdf, ops);
    if ops == [] {
      StartExpected(kdf);
    } else {
      var front, last := ops[..|ops| - 1], ops[|ops| - 1];
      Reachable(kdf, front);
      assert ops == front + [last] && Legal(last);
      StepAllStep(kdf, front, last);
      ExpectedStep(kdf, front, last);
    }
  }

  /** The bits imply one another as the keys depend on one another. */
  lemma BitsOrdered(kdf: Kdf, ops: seq<Op>)
    requires Lawful(kdf) && AllLegal(ops)
    ensures var s := StepAll(kdf, ops);
      (s.hasAuth ==> s.hasTrans) && (s.hasTrans ==> s.hasSn1 && s.hasSn2)
  {
    Reachable(kdf, ops);
    Needs(ops);
  }

  function TransKey(kdf: Kdf, ops: seq<Op>, pwd: Bytes): Bytes {
    kdf(pwd, Salt(ops), TRANS_KEY_LEN)
  }

  /** What a request for the trans key gives, for every history: it succeeds if and only if there is a
      password, and a key is cached or both serial numbers are set and the derivation works; the key is then
      that of the cached password or of the caller's. And when each error comes. */
  lemma TransKeyIs(kdf: Kdf, ops: seq<Op>, pwd: Option<Bytes>, fails: bool)
    requires Lawful(kdf) && AllLegal(ops)
    ensures Sized(StepAll(kdf, ops))
    ensures var r := Step(kdf, StepAll(kdf, ops), GenTrans(pwd, fails)).1;
      var given, both := pwd.Some? && pwd.value != [], SnOf(ops, Sn1).Some? && SnOf(ops, Sn2).Some?;
      && (r == Err(ParamInvalid) <==> !given)
      && (r == Err(NotReady) <==> given && PwdOf(ops).None? && !both)
      && (r == Err(KdfFailed) <==> given && PwdOf(ops).None? && both && fails)
      && (r.Ok? <==> given && (PwdOf(ops).Some? || (both && !fails)))
      && (r.Ok? ==> r.value == TransKey(kdf, ops, if PwdOf(ops).Some? then PwdOf(ops).value else pwd.value))
  {
    Reachable(kdf, ops);
  }

  /** What a request for the auth key gives, for every history: it succeeds if and only if one is cached, or
      there is a trans key and the derivation works; cached or fresh, it is derived from that trans key over
      the serial numbers now set. */
  lemma AuthKeyIs(kdf: Kdf, ops: seq<Op>, fails: bool)
    requires Lawful(kdf) && AllLegal(ops)
    ensures Sized(StepAll(kdf, ops))
    ensures var r := Step(kdf, StepAll(kdf, ops), GenAuth(fails)).1;
      && (r.Ok? <==> AuthMade(ops) || (PwdOf(ops).Some? && !fails))
      && (r.Ok? ==> PwdOf(ops).Some? && r.value == kdf(TransKey(kdf, ops, PwdOf(ops).value), Salt(ops), AUTH_KEY_LEN))
      && (r == Err(NotReady) <==> PwdOf(ops).None?)
      && (r == Err(KdfFailed) <==> PwdOf(ops).Some? && !AuthMade(ops) && fails)
  {
    Reachable(kdf, ops);
    Needs(ops);
  }

  /** The password is the one of the history, if that has one. */
  predicate OwnOrFirst(ops: seq<Op>, pwd: Bytes) {
    PwdOf(ops).None? || PwdOf(ops) == Some(pwd)
  }

  /** The derivation makes different keys of two passwords, if they differ. */
  predicate Separates(kdf: Kdf, ops: seq<Op>, p: Bytes, q: Bytes) {
    p != q ==> TransKey(kdf, ops, p) != TransKey(kdf, ops, q)
  }

  /** A request for the trans key that succeeds gives the key of the password of the history, and of the
      caller's password only if the history has none. It gives the key of the caller's own password if the
      two are the same or there is none, and, for a derivation that separates the two, only then. */
  lemma OwnPassword(kdf: Kdf, ops: seq<Op>, pwd: Bytes, fails: bool)
    requires Lawful(kdf) && AllLegal(ops) && Sized(StepAll(kdf, ops))
    requires Step(kdf, StepAll(kdf, ops), GenTrans(Some(pwd), fails)).1.Ok?
    ensures var key := Step(kdf, StepAll(kdf, ops), GenTrans(Some(pwd), fails)).1.value;
      && key == TransKey(kdf, ops, if PwdOf(ops).Some? then PwdOf(ops).value else pwd)
      && (OwnOrFirst(ops, pwd) ==> key == TransKey(kdf, ops, pwd))
      && ((PwdOf(ops).Some? ==> Separates(kdf, ops, PwdOf(ops).value, pwd)) ==>
            (key == TransKey(kdf, ops, pwd) <==> OwnOrFirst(ops, pwd)))
  {
    TransKeyIs(kdf, ops, Some(pwd), fails);
  }

  /** Two serial numbers are set and a first caller asks for the key. */
  function Paired(sn1: Bytes, sn2: Bytes, pwd: Bytes): seq<Op> {
    [AddSn(sn1, Sn1)] + [AddSn(sn2, Sn2)] + [GenTrans(Some(pwd), false)]
  }

  lemma PairedHas(sn1: Bytes, sn2: Bytes, pwd: Bytes)
    requires |sn1| == |sn2| == SN_LEN && pwd != []
    ensures AllLegal(Paired(sn1, sn2, pwd)) && PwdOf(Paired(sn1, sn2, pwd)) == Some(pwd)
  {
    var a, b := AddSn(sn1, Sn1), AddSn(sn2, Sn2);
    assert [] + [a] == [a];
    HistoryStep([], a);
    HistoryStep([a], b);
    HistoryStep([a] + [b], GenTrans(Some(pwd), false));
  }

  /** For any serial numbers and any two passwords that the derivation separates: after the first has made a
      key, a caller with the second is given it, whether or not a derivation would succeed. */
  lemma OtherPasswordServed(kdf: Kdf, sn1: Bytes, sn2: Bytes, p: Bytes, q: Bytes, fails: bool)
    requires Lawful(kdf) && |sn1| == |sn2| == SN_LEN && p != [] && q != [] && p != q
    requires Separates(kdf, Paired(sn1, sn2, p), p, q)
    ensures var ops := Paired(sn1, sn2, p);
      && Sized(StepAll(kdf, ops))
      && Step(kdf, StepAll(kdf, ops), GenTrans(Some(q), fails)).1 == Ok(TransKey(kdf, ops, p))
      && TransKey(kdf, ops, p) != TransKey(kdf, ops, q)
  {
    PairedHas(sn1, sn2, p);
    Reachable(kdf, Paired(sn1, sn2, p));
  }

  /** A derivation that obeys the law and separates passwords of different lengths. */
  function LengthKdf(): Kdf {
    (pwd: Bytes, _, n: nat) => seq(n, _ => |pwd| % 256)
  }

  lemma LengthSeparates(ops: seq<Op>, p: Bytes, q: Bytes)
    requires |p| < |q| < 256
    ensures Lawful(LengthKdf()) && Separates(LengthKdf(), ops, p, q)
  {
    assert TransKey(LengthKdf(), ops, p)[0] == |p| && TransKey(LengthKdf(), ops, q)[0] == |q|;
  }

  // ----- the context as it stands in memory -----

  const TRANS_BIT: bv8 := 1
  const AUTH_BIT: bv8 := 2
  const SN1_BIT: bv8 := 4
  const SN2_BIT: bv8 := 8

  predicate IsSet(bits: bv8, bit: bv8) {
    bits & bit != 0
  }

  class SessKeyContext {
    var bitMap: bv8
    var sn: Bytes
    var transKey: Bytes
    var authKey: Bytes

    ghost function View(): Context
      reads this
    {
      Context(IsSet(bitMap, TRANS_BIT), IsSet(bitMap, AUTH_BIT), IsSet(bitMap, SN1_BIT), IsSet(bitMap, SN2_BIT),
              sn, transKey, authKey)
    }

    constructor ()
      ensures View() == INITIAL
    {
      bitMap, sn, transKey, authKey := 0, Zeros(2 * SN_LEN), Zeros(TRANS_KEY_LEN), Zeros(AUTH_KEY_LEN);
    }

    method KeyParamUpdate()
      modifies this
      ensures View() == ParamUpdate(old(View()))
    {
      if IsSet(bitMap, TRANS_BIT) {
        transKey := Zeros(TRANS_KEY_LEN);
        bitMap := bitMap & !TRANS_BIT;
      }
      if IsSet(bitMap, AUTH_BIT) {
        authKey := Zeros(AUTH_KEY_LEN);
        bitMap := bitMap & !AUTH_BIT;
      }
    }

    method AddSerial(newSn: Option<Bytes>, which: SnType) returns (ok: bool)
      requires Sized(View()) && (newSn.Some? ==> |newSn.value| == SN_LEN)
      modifies this
      ensures ok <==> newSn.Some?
      ensures ok ==> forall kdf :: View() == Step(kdf, old(View()), AddSn(newSn.value, which)).0
      ensures !ok ==> View() == old(View())
    {
      if newSn.None? {
        return false;
      }
      if which.Sn1? {
        sn := newSn.value + sn[SN_LEN..];
      } else {
        sn := sn[..SN_LEN] + newSn.value;
      }
      KeyParamUpdate();
      bitMap := bitMap | if which.Sn1? then SN1_BIT else SN2_BIT;
      ok := true;
    }

    method GenTransKey(kdf: Kdf, pwd: Option<Bytes>, fails: bool) returns (key: Result<Bytes, Error>)
      requires Sized(View())
      modifies this
      ensures (View(), key) == Step(kdf, old(View()), GenTrans(pwd, fails))
    {
      if pwd.None? || pwd.value == [] {
        return Err(ParamInvalid);
      }
      if IsSet(bitMap, TRANS_BIT) {
        return Ok(transKey);
      }
      if !IsSet(bitMap, SN1_BIT) || !IsSet(bitMap, SN2_BIT) {
        return Err(NotReady);
      }
      KeyParamUpdate();
      if fails {
        return Err(KdfFailed);
      }
      transKey := kdf(pwd.value, sn, TRANS_KEY_LEN);
      bitMap := bitMap | TRANS_BIT;
      key := Ok(transKey);
    }

    method GenAuthKey(kdf: Kdf, fails: bool) returns (key: Result<Bytes, Error>)
      requires Sized(View())
      modifies this
      ensures (View(), key) == Step(kdf, old(View()), GenAuth(fails))
    {
      if IsSet(bitMap, AUTH_BIT) {
        return Ok(authKey);
      }
      if !IsSet(bitMap, SN1_BIT) || !IsSet(bitMap, SN2_BIT) || !IsSet(bitMap, TRANS_BIT) {
        return Err(NotReady);
      }
      if fails {
        return Err(KdfFailed);
      }
      authKey := kdf(transKey, sn, AUTH_KEY_LEN);
      bitMap := bitMap | AUTH_BIT;
      key := Ok(authKey);
    }
  }
}
