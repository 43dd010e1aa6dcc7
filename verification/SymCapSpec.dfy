/**
 * The lengths of a symmetric cipher capability in src/amvp_capabilities.c: each of IV, payload and
 * AAD length is given either as a list of values or as a domain, by separate calls in any order.
 */
module SymCapSpec {
  import opened Ciphers

  /** A C int. */
  type CInt = x: int | -0x8000_0000 <= x < 0x8000_0000

  datatype Domain = Domain(min: CInt, max: CInt, increment: CInt)

  const UNSET := Domain(0, 0, 0)

  datatype DomainParm = DomainIv | DomainPt | DomainAad | DomainDu
  datatype Parm = KeyLen | TagLen | IvLen | PtLen | Tweak | AadLen | DulenMatchesPayload

  datatype Lengths = Lengths(
    keylen: seq<int>, taglen: seq<int>, tweak: seq<int>,
    ivlen: seq<int>, ptlen: seq<int>, aadlen: seq<int>,
    iv: Domain, payload: Domain, aad: Domain, du: Domain,
    dulenMatches: bool)

  const FRESH := Lengths([], [], [], [], [], [], UNSET, UNSET, UNSET, UNSET, true)

  /** amvp_is_domain_already_set: the 32-bit sum of the three numbers is not zero. */
  predicate IsSet(d: Domain) {
    (d.min + d.max + d.increment) % 0x1_0000_0000 != 0
  }

  // ---- validation ----------------------------------------------------------

  /** A domain that enumerates lengths from `min` to `max`. */
  predicate WellFormed(min: int, max: int, increment: int) {
    0 <= min <= max && increment > 0 && (max - min) % increment == 0
  }

  /** amvp_validate_sym_cipher_domain_value */
  predicate DomainAllowed(c: Cipher, p: DomainParm, min: int, max: int, increment: int) {
    WellFormed(min, max, increment) &&
    match c
    case AesGcm | AesXpn => (match p
      case DomainIv => min >= 8 && max <= 1024
      case DomainPt | DomainAad => max <= 65536
      case DomainDu => false)
    case AesGcmSiv => (p.DomainPt? || p.DomainAad?) && max <= 65536 && increment == 8
    case AesCcm => (match p
      case DomainIv => min >= 56 && max <= 104 && increment == 8
      case DomainPt => max <= 256 && increment == 8
      case DomainAad => max <= 524288
      case DomainDu => false)
    case AesCbcCs1 | AesCbcCs2 | AesCbcCs3 => p.DomainPt? && min >= 128 && max <= 65536
    case AesCtr => p.DomainPt? && min >= 1 && max <= 128
    case AesXts => (match p
      case DomainPt => min >= 128 && max <= 65536
      case DomainDu => min >= 128 && max <= 65536 && increment % 8 == 0
      case DomainIv | DomainAad => false)
    case AesKw => p.DomainPt? && min >= 128 && max <= 524288 && increment % 8 == 0
    case AesKwp => p.DomainPt? && max <= 524288
    case AesGmac => (match p
      case DomainIv => min >= 8 && max <= 1024 && increment % 8 == 0
      case DomainAad => max <= 65536 && increment % 8 == 0
      case DomainPt | DomainDu => false)
    case TdesCtr | TdesKw => p.DomainPt? && max <= 65536
    case _ => false
  }

  /** A stored domain: none, or one whose numbers passed validation. */
  predicate Sound(d: Domain) {
    d == UNSET || (WellFormed(d.min, d.max, d.increment) && d.max <= 524288)
  }

  /** The sum that tells whether a domain is set cannot wrap to zero for a domain that passed validation. */
  lemma SetMeansSet(d: Domain)
    requires Sound(d)
    ensures IsSet(d) <==> d != UNSET
  {
    if d != UNSET {
      assert 0 < d.min + d.max + d.increment < 0x1_0000_0000;
    }
  }

  /** Without the upper bounds of the validation it would: this well-formed domain reads as unset. */
  lemma UnboundedDomainWraps()
    ensures WellFormed(0x7fff_ffff, 0x7fff_ffff, 2) && !IsSet(Domain(0x7fff_ffff, 0x7fff_ffff, 2))
  {
  }

  // ---- the calls -----------------------------------------------------------

  datatype Call =
    | SetDomain(dp: DomainParm, min: CInt, max: CInt, increment: CInt)
    | SetParm(parm: Parm, value: CInt)

  /** Which single values are valid for a cipher and a parameter. */
  type ValueCheck = (Cipher, Parm, int) -> bool

  /** A domain may be given: no list of values was given for the same length. */
  predicate FreeForDomain(c: Cipher, s: Lengths, p: DomainParm) {
    match p
    case DomainIv => s.ivlen == []
    case DomainPt => s.ptlen == []
    case DomainAad => s.aadlen == []
    case DomainDu => !s.dulenMatches && c.AesXts?
  }

  /** A single value may be given: no domain was given for the same length. */
  predicate FreeForValue(c: Cipher, s: Lengths, p: Parm, value: int) {
    match p
    case IvLen => !IsSet(s.iv)
    case PtLen => !IsSet(s.payload)
    case AadLen => !IsSet(s.aad)
    case DulenMatchesPayload => c.AesXts? && s.du.max == 0 && s.du.increment == 0 && (value == 0 || value == 1)
    case KeyLen | TagLen | Tweak => true
  }

  predicate Accepted(c: Cipher, valid: ValueCheck, s: Lengths, call: Call) {
    match call
    case SetDomain(p, min, max, increment) => FreeForDomain(c, s, p) && DomainAllowed(c, p, min, max, increment)
    case SetParm(p, value) => FreeForValue(c, s, p, value) && (p.DulenMatchesPayload? || valid(c, p, value))
  }

  function PutDomain(s: Lengths, p: DomainParm, d: Domain): Lengths {
    match p
    case DomainIv => s.(iv := d)
    case DomainPt => s.(payload := d)
    case DomainAad => s.(aad := d)
    case DomainDu => s.(du := d)
  }

  function PutValue(s: Lengths, p: Parm, value: int): Lengths {
    match p
    case KeyLen => s.(keylen := s.keylen + [value])
    case TagLen => s.(taglen := s.taglen + [value])
    case Tweak => s.(tweak := s.tweak + [value])
    case IvLen => s.(ivlen := s.ivlen + [value])
    case PtLen => s.(ptlen := s.ptlen + [value])
    case AadLen => s.(aadlen := s.aadlen + [value])
    case DulenMatchesPayload => s.(dulenMatches := value == 1)
  }

  function Step(c: Cipher, valid: ValueCheck, s: Lengths, call: Call): Lengths {
    if !Accepted(c, valid, s, call) then s else
    match call
    case SetDomain(p, min, max, increment) => PutDomain(s, p, Domain(min, max, increment))
    case SetParm(p, value) => PutValue(s, p, value)
  }

  function After(c: Cipher, valid: ValueCheck, s: Lengths, calls: seq<Call>): Lengths {
    if calls == [] then s else Step(c, valid, After(c, valid, s, calls[..|calls| - 1]), calls[|calls| - 1])
  }

  lemma AfterNext(c: Cipher, valid: ValueCheck, s: Lengths, calls: seq<Call>, call: Call)
    ensures After(c, valid, s, calls + [call]) == Step(c, valid, After(c, valid, s, calls), call)
  {
    assert (calls + [call])[..|calls|] == calls;
  }

  // ---- what every state keeps ----------------------------------------------

  /** Never both a list and a domain; a data-unit domain only beside the flag; only validated domains. */
  ghost predicate Inv(s: Lengths) {
    && (s.ivlen == [] || s.iv == UNSET)
    && (s.ptlen == [] || s.payload == UNSET)
    && (s.aadlen == [] || s.aad == UNSET)
    && (s.du != UNSET ==> !s.dulenMatches)
    && Sound(s.iv) && Sound(s.payload) && Sound(s.aad) && Sound(s.du)
  }

  lemma AllowedIsSound(c: Cipher, p: DomainParm, min: CInt, max: CInt, increment: CInt)
    requires DomainAllowed(c, p, min, max, increment)
    ensures Sound(Domain(min, max, increment)) && Domain(min, max, increment) != UNSET
  {
  }

  /** The first form used for a length stays the only one, whatever is called later. */
  ghost predicate Committed(s: Lengths, t: Lengths) {
    && s.ivlen <= t.ivlen && s.ptlen <= t.ptlen && s.aadlen <= t.aadlen
    && (s.ivlen != [] ==> t.iv == UNSET) && (s.iv != UNSET ==> t.iv != UNSET && t.ivlen == [])
    && (s.ptlen != [] ==> t.payload == UNSET) && (s.payload != UNSET ==> t.payload != UNSET && t.ptlen == [])
    && (s.aadlen != [] ==> t.aad == UNSET) && (s.aad != UNSET ==> t.aad != UNSET && t.aadlen == [])
    && (s.du != UNSET ==> t.du != UNSET && !t.dulenMatches)
  }

  lemma PutDomainKeeps(c: Cipher, s: Lengths, p: DomainParm, d: Domain)
    requires Inv(s) && FreeForDomain(c, s, p) && Sound(d) && d != UNSET
    ensures Inv(PutDomain(s, p, d)) && Committed(s, PutDomain(s, p, d))
  {
  }

  lemma PutValueKeeps(c: Cipher, s: Lengths, p: Parm, value: int)
    requires Inv(s) && FreeForValue(c, s, p, value)
    ensures Inv(PutValue(s, p, value)) && Committed(s, PutValue(s, p, value))
  {
    SetMeansSet(s.iv);
    SetMeansSet(s.payload);
    SetMeansSet(s.aad);
  }

  lemma StepKeeps(c: Cipher, valid: ValueCheck, s: Lengths, call: Call)
    requires Inv(s)
    ensures Inv(Step(c, valid, s, call)) && Committed(s, Step(c, valid, s, call))
  {
    if Accepted(c, valid, s, call) {
      match call
      case SetDomain(p, min, max, increment) =>
        AllowedIsSound(c, p, min, max, increment);
        PutDomainKeeps(c, s, p, Domain(min, max, increment));
      case SetParm(p, value) =>
        PutValueKeeps(c, s, p, value);
    }
  }

  /** Every state reachable by any calls in any order satisfies the invariant. */
  lemma {:induction false} ReachableInv(c: Cipher, valid: ValueCheck, calls: seq<Call>)
    ensures Inv(After(c, valid, FRESH, calls))
  {
    if calls != [] {
      ReachableInv(c, valid, calls[..|calls| - 1]);
      StepKeeps(c, valid, After(c, valid, FRESH, calls[..|calls| - 1]), calls[|calls| - 1]);
    }
  }

  lemma {:induction false} FirstFormWins(c: Cipher, valid: ValueCheck, s: Lengths, calls: seq<Call>)
    requires Inv(s)
    ensures Inv(After(c, valid, s, calls)) && Committed(s, After(c, valid, s, calls))
  {
    if calls != [] {
      var mid := After(c, valid, s, calls[..|calls| - 1]);
      FirstFormWins(c, valid, s, calls[..|calls| - 1]);
      StepKeeps(c, valid, mid, calls[|calls| - 1]);
    }
  }

  // ---- the state in the terms of the calls ----------------------------------

  function ListOf(s: Lengths, p: Parm): seq<int> {
    match p
    case KeyLen => s.keylen
    case TagLen => s.taglen
    case Tweak => s.tweak
    case IvLen => s.ivlen
    case PtLen => s.ptlen
    case AadLen => s.aadlen
    case DulenMatchesPayload => []
  }

  function DomainOf(s: Lengths, p: DomainParm): Domain {
    match p
    case DomainIv => s.iv
    case DomainPt => s.payload
    case DomainAad => s.aad
    case DomainDu => s.du
  }

  /** The calls that had an effect, in order. */
  function Effective(c: Cipher, valid: ValueCheck, calls: seq<Call>): seq<Call> {
    if calls == [] then []
    else
      var before, last := calls[..|calls| - 1], calls[|calls| - 1];
      Effective(c, valid, before) + if Accepted(c, valid, After(c, valid, FRESH, before), last) then [last] else []
  }

  /** The values that calls give to a length, in order. */
  function ValuesOf(calls: seq<Call>, p: Parm): seq<int> {
    if calls == [] then []
    else
      var last := calls[|calls| - 1];
      ValuesOf(calls[..|calls| - 1], p)
        + if last.SetParm? && last.parm == p && p != DulenMatchesPayload then [last.value] else []
  }

  /** The last domain that calls give to a length. */
  function LastDomain(calls: seq<Call>, p: DomainParm): Domain {
    if calls == [] then UNSET
    else
      var last := calls[|calls| - 1];
      if last.SetDomain? && last.dp == p then Domain(last.min, last.max, last.increment)
      else LastDomain(calls[..|calls| - 1], p)
  }

  /** The last setting of the flag, which is on at first. */
  function LastFlag(calls: seq<Call>): bool {
    if calls == [] then true
    else
      var last := calls[|calls| - 1];
      if last.SetParm? && last.parm == DulenMatchesPayload then last.value == 1 else LastFlag(calls[..|calls| - 1])
  }

  lemma EffectiveNext(calls: seq<Call>, call: Call, p: Parm, dp: DomainParm)
    ensures ValuesOf(calls + [call], p) == ValuesOf(calls, p)
      + if call.SetParm? && call.parm == p && p != DulenMatchesPayload then [call.value] else []
    ensures LastDomain(calls + [call], dp) ==
      if call.SetDomain? && call.dp == dp then Domain(call.min, call.max, call.increment) else LastDomain(calls, dp)
    ensures LastFlag(calls + [call]) ==
      if call.SetParm? && call.parm == DulenMatchesPayload then call.value == 1 else LastFlag(calls)
  {
    assert (calls + [call])[..|calls|] == calls;
  }

  /** What an effective call changes. */
  lemma StepAt(c: Cipher, valid: ValueCheck, s: Lengths, call: Call, p: Parm, dp: DomainParm)
    requires Accepted(c, valid, s, call)
    ensures var t := Step(c, valid, s, call);
      && ListOf(t, p) == ListOf(s, p)
           + (if call.SetParm? && call.parm == p && p != DulenMatchesPayload then [call.value] else [])
      && DomainOf(t, dp) ==
           (if call.SetDomain? && call.dp == dp then Domain(call.min, call.max, call.increment) else DomainOf(s, dp))
      && t.dulenMatches ==
           (if call.SetParm? && call.parm == DulenMatchesPayload then call.value == 1 else s.dulenMatches)
  {
    match call
    case SetParm(q, value) => PutValueAt(s, q, value, p, dp);
    case SetDomain(q, min, max, increment) => PutDomainAt(s, q, Domain(min, max, increment), p, dp);
  }

  lemma PutDomainAt(s: Lengths, q: DomainParm, d: Domain, p: Parm, dp: DomainParm)
    ensures var t := PutDomain(s, q, d);
      && ListOf(t, p) == ListOf(s, p) + [] && t.dulenMatches == s.dulenMatches
      && DomainOf(t, dp) == if q == dp then d else DomainOf(s, dp)
  {
    assert ListOf(s, p) + [] == ListOf(s, p);
  }

  lemma PutValueAt(s: Lengths, q: Parm, value: int, p: Parm, dp: DomainParm)
    ensures var t := PutValue(s, q, value);
      && ListOf(t, p) == ListOf(s, p) + (if q == p && p != DulenMatchesPayload then [value] else [])
      && DomainOf(t, dp) == DomainOf(s, dp)
  {
    assert ListOf(s, p) + [] == ListOf(s, p);
  }

  /** A capability holds exactly the values, the last domains and the last flag of the effective calls. */
  lemma {:induction false} StateOfCalls(c: Cipher, valid: ValueCheck, calls: seq<Call>, p: Parm, dp: DomainParm)
    ensures var (s, done) := (After(c, valid, FRESH, calls), Effective(c, valid, calls));
      ListOf(s, p) == ValuesOf(done, p) && DomainOf(s, dp) == LastDomain(done, dp) && s.dulenMatches == LastFlag(done)
  {
    if calls != [] {
      var before, last := calls[..|calls| - 1], calls[|calls| - 1];
      StateOfCalls(c, valid, before, p, dp);
      NextState(c, valid, After(c, valid, FRESH, before), Effective(c, valid, before), last, p, dp);
      assert Effective(c, valid, before) + [] == Effective(c, valid, before);
    }
  }

  /** The state `s` holds what the effective calls `done` say; so it does after a further call. */
  lemma NextState(c: Cipher, valid: ValueCheck, s: Lengths, done: seq<Call>, call: Call, p: Parm, dp: DomainParm)
    requires ListOf(s, p) == ValuesOf(done, p)
    requires DomainOf(s, dp) == LastDomain(done, dp) && s.dulenMatches == LastFlag(done)
    ensures var (t, done') := (Step(c, valid, s, call), if Accepted(c, valid, s, call) then done + [call] else done);
      && ListOf(t, p) == ValuesOf(done', p)
      && DomainOf(t, dp) == LastDomain(done', dp) && t.dulenMatches == LastFlag(done')
  {
    if Accepted(c, valid, s, call) {
      StepAt(c, valid, s, call, p, dp);
      EffectiveNext(done, call, p, dp);
    }
  }

  /** A value may be given when no effective call gave a domain for the same length. */
  ghost predicate ValueMayFollow(c: Cipher, done: seq<Call>, p: Parm, value: int) {
    match p
    case KeyLen | TagLen | Tweak => true
    case IvLen => LastDomain(done, DomainIv) == UNSET
    case PtLen => LastDomain(done, DomainPt) == UNSET
    case AadLen => LastDomain(done, DomainAad) == UNSET
    case DulenMatchesPayload => c == AesXts && LastDomain(done, DomainDu) == UNSET && (value == 0 || value == 1)
  }

  /** A domain may be given when no effective call gave a value, and a data-unit domain when the flag is off. */
  ghost predicate DomainMayFollow(c: Cipher, done: seq<Call>, dp: DomainParm) {
    match dp
    case DomainIv => ValuesOf(done, IvLen) == []
    case DomainPt => ValuesOf(done, PtLen) == []
    case DomainAad => ValuesOf(done, AadLen) == []
    case DomainDu => c == AesXts && !LastFlag(done)
  }

  lemma ValueByHistory(c: Cipher, valid: ValueCheck, calls: seq<Call>, p: Parm, value: int)
    ensures var (s, done) := (After(c, valid, FRESH, calls), Effective(c, valid, calls));
      FreeForValue(c, s, p, value) <==> ValueMayFollow(c, done, p, value)
  {
    var s := After(c, valid, FRESH, calls);
    ReachableInv(c, valid, calls);
    var dp := if p.IvLen? then DomainIv else if p.PtLen? then DomainPt else if p.AadLen? then DomainAad else DomainDu;
    StateOfCalls(c, valid, calls, p, dp);
    SetMeansSet(DomainOf(s, dp));
    DuUnset(s.du);
  }

  lemma DomainByHistory(c: Cipher, valid: ValueCheck, calls: seq<Call>, dp: DomainParm)
    ensures var (s, done) := (After(c, valid, FRESH, calls), Effective(c, valid, calls));
      FreeForDomain(c, s, dp) <==> DomainMayFollow(c, done, dp)
  {
    var p := if dp.DomainIv? then IvLen else if dp.DomainPt? then PtLen else AadLen;
    StateOfCalls(c, valid, calls, p, dp);
  }

  /** When a call has an effect, told by the effective ones before it. */
  ghost predicate MayFollow(c: Cipher, valid: ValueCheck, done: seq<Call>, call: Call) {
    match call
    case SetParm(p, value) => ValueMayFollow(c, done, p, value) && (p == DulenMatchesPayload || valid(c, p, value))
    case SetDomain(dp, min, max, increment) =>
      DomainMayFollow(c, done, dp) && DomainAllowed(c, dp, min, max, increment)
  }

  lemma AcceptedByHistory(c: Cipher, valid: ValueCheck, calls: seq<Call>, call: Call)
    ensures var (s, done) := (After(c, valid, FRESH, calls), Effective(c, valid, calls));
      Accepted(c, valid, s, call) <==> MayFollow(c, valid, done, call)
  {
    match call
    case SetParm(p, value) => ValueByHistory(c, valid, calls, p, value);
    case SetDomain(dp, _, _, _) => DomainByHistory(c, valid, calls, dp);
  }

  lemma DuUnset(d: Domain)
    requires Sound(d)
    ensures d.max == 0 && d.increment == 0 <==> d == UNSET
  {
  }
}
