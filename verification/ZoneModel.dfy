// The zone state machine of the zoned namespace (Zoned Namespace Command Set Specification 1.1a,
// section 2.1.1) on values: what each zone command makes of the zones and of the resource
// counters, and what holds over all sequences of commands.
module ZoneModel {
  import opened Collections
  import opened MixedRadix

  datatype ZoneState = Empty | OpenedImpl | OpenedExpl | Closed | ReadOnly | Full | Offline

  // A zone descriptor; its zslba and zone_capacity follow from its number.
  datatype Zone = Zone(state: ZoneState, wp: nat, zrwav: bool)

  datatype Resource = ActiveZone | OpenZone | ZrwaZone

  // acquired_cnt of the three resources.
  datatype Acquired = Acquired(active: int, open: int, zrwa: int)

  datatype State = State(zones: seq<Zone>, res: Acquired)

  // cap is both the size and the capacity of a zone in blocks, as __init_descriptor sets it up.
  datatype Config = Config(nrZones: nat, cap: nat, total: Resource -> nat, lbasPerZrwafg: nat, lbasPerZrwa: nat,
                           lbaBytes: nat, writeUnitSize: nat)

  ghost predicate Ok(c: Config) {
    0 < c.nrZones && 0 < c.cap && 0 < c.lbasPerZrwafg && 0 < c.lbasPerZrwa && 0 < c.writeUnitSize
  }

  datatype Status = Success | InvalidZoneOperation | ZrwaRsrcUnavail | ErrBoundary | ErrFull | ErrReadOnly | ErrOffline
                  | InvalidWrite | NoActiveZone | NoOpenZone | InvalidTransition | InvalidField

  datatype Result = Result(s: State, status: Status)

  // ----- Resources -----

  function Get(a: Acquired, r: Resource): int {
    match r case ActiveZone => a.active case OpenZone => a.open case ZrwaZone => a.zrwa
  }

  function Add(a: Acquired, r: Resource, n: int): Acquired {
    match r
    case ActiveZone => a.(active := a.active + n)
    case OpenZone => a.(open := a.open + n)
    case ZrwaZone => a.(zrwa := a.zrwa + n)
  }

  predicate IsFull(c: Config, a: Acquired, r: Resource) {
    Get(a, r) == c.total(r)
  }

  predicate IsOpened(z: Zone) {
    z.state.OpenedImpl? || z.state.OpenedExpl?
  }

  predicate IsActive(z: Zone) {
    IsOpened(z) || z.state.Closed?
  }

  // Zones that neither the host nor the device can use any more.
  predicate IsDead(z: Zone) {
    z.state.ReadOnly? || z.state.Offline?
  }

  // The resources a zone is entitled to in its state.
  predicate Uses(r: Resource, z: Zone) {
    match r case ActiveZone => IsActive(z) case OpenZone => IsOpened(z) case ZrwaZone => IsActive(z) && z.zrwav
  }

  function One(b: bool): nat {
    if b then 1 else 0
  }

  ghost function Holders(r: Resource, zones: seq<Zone>): set<nat> {
    set i: nat | i < |zones| && Uses(r, zones[i])
  }

  lemma HoldersUpdate(r: Resource, zones: seq<Zone>, i: nat, z: Zone)
    requires i < |zones|
    ensures |Holders(r, zones[i := z])| == |Holders(r, zones)| - One(Uses(r, zones[i])) + One(Uses(r, z))
  {
    hide Uses;
    var rest := Holders(r, zones) - {i};
    assert Holders(r, zones) == if Uses(r, zones[i]) then rest + {i} else rest;
    assert Holders(r, zones[i := z]) == if Uses(r, z) then rest + {i} else rest;
  }

  // ----- The invariant -----

  // zone_to_slba
  function ZoneStart(c: Config, zid: nat): nat {
    zid * c.cap
  }

  // lba_to_zone
  function LbaZone(c: Config, lba: nat): nat
    requires 0 < c.cap
  {
    lba / c.cap
  }

  // Where the write pointer of a zone may be.
  predicate ZoneOk(c: Config, zid: nat, z: Zone) {
    && (IsActive(z) ==> ZoneStart(c, zid) <= z.wp < ZoneStart(c, zid) + c.cap)
    && (z.state.Empty? ==> z.wp == ZoneStart(c, zid) && !z.zrwav)
    && (z.state.Full? ==> ZoneStart(c, zid) <= z.wp <= ZoneStart(c, zid) + c.cap)
  }

  // Each counter is the number of zones holding the resource, and stays within its total.
  ghost predicate Inv(c: Config, s: State) {
    && 0 < c.cap && |s.zones| == c.nrZones
    && (forall r: Resource :: Get(s.res, r) == |Holders(r, s.zones)| <= c.total(r))
    && (forall i :: 0 <= i < |s.zones| ==> ZoneOk(c, i, s.zones[i]))
  }

  // A zone is changed, and the counters with it.
  function Change(s: State, zid: nat, z: Zone, res: Acquired): State
    requires zid < |s.zones|
  {
    State(s.zones[zid := z], res)
  }

  lemma ChangeOk(c: Config, s: State, zid: nat, z: Zone, res: Acquired)
    requires Inv(c, s) && zid < |s.zones| && ZoneOk(c, zid, z)
    requires forall r: Resource ::
               Get(res, r) == Get(s.res, r) - One(Uses(r, s.zones[zid])) + One(Uses(r, z)) <= c.total(r)
    ensures Inv(c, Change(s, zid, z, res))
  {
    forall r: Resource ensures Get(res, r) == |Holders(r, Change(s, zid, z, res).zones)| {
      HoldersUpdate(r, s.zones, zid, z);
    }
  }

  // The assertion in release_zone_resource: a zone that uses a resource has it counted.
  lemma ReleaseOk(c: Config, s: State, zid: nat, r: Resource)
    requires Inv(c, s) && zid < |s.zones| && Uses(r, s.zones[zid])
    ensures Get(s.res, r) > 0
  {
    assert zid in Holders(r, s.zones);
  }

  // ----- Zone Management Send (section 3.4.3) -----

  function CloseZone(s: State, zid: nat): Result
    requires zid < |s.zones|
  {
    var z := s.zones[zid];
    if IsOpened(z) then Result(Change(s, zid, z.(state := Closed), Add(s.res, OpenZone, -1)), Success)
    else Result(s, if z.state.Closed? then Success else InvalidTransition)
  }

  // What a zone gives back when it stops being active.
  function Released(a: Acquired, z: Zone): Acquired {
    var a1 := if IsOpened(z) then Add(a, OpenZone, -1) else a;
    var a2 := if IsActive(z) then Add(a1, ActiveZone, -1) else a1;
    if IsActive(z) && z.zrwav then Add(a2, ZrwaZone, -1) else a2
  }

  function FinishZone(s: State, zid: nat): Result
    requires zid < |s.zones|
  {
    var z := s.zones[zid];
    if IsActive(z) || z.state.Empty? then Result(Change(s, zid, z.(state := Full), Released(s.res, z)), Success)
    else Result(s, if z.state.Full? then Success else InvalidTransition)
  }

  function OpenZoneCmd(c: Config, s: State, zid: nat, zrwa: bool): Result
    requires zid < |s.zones|
  {
    var z := s.zones[zid];
    match z.state
    case Empty =>
      if IsFull(c, s.res, ActiveZone) then Result(s, NoActiveZone)
      else if IsFull(c, s.res, OpenZone) then Result(s, NoOpenZone)
      else if zrwa && IsFull(c, s.res, ZrwaZone) then Result(s, ZrwaRsrcUnavail)
      else
        var a := Add(Add(s.res, ActiveZone, 1), OpenZone, 1);
        Result(Change(s, zid, z.(state := OpenedExpl, zrwav := z.zrwav || zrwa),
                      if zrwa then Add(a, ZrwaZone, 1) else a),
               Success)
    case Closed =>
      if IsFull(c, s.res, OpenZone) then Result(s, NoOpenZone)
      else Result(Change(s, zid, z.(state := OpenedExpl), Add(s.res, OpenZone, 1)), Success)
    case OpenedImpl => Result(Change(s, zid, z.(state := OpenedExpl), s.res), Success)
    case OpenedExpl => Result(s, Success)
    case _ => Result(s, InvalidTransition)
  }

  function ResetZone(c: Config, s: State, zid: nat): Result
    requires zid < |s.zones|
  {
    var z := s.zones[zid];
    if IsActive(z) || z.state.Full? || z.state.Empty? then
      Result(Change(s, zid, Zone(Empty, ZoneStart(c, zid), false), Released(s.res, z)), Success)
    else Result(s, InvalidTransition)
  }

  function OfflineZone(s: State, zid: nat): Result
    requires zid < |s.zones|
  {
    var z := s.zones[zid];
    match z.state
    case ReadOnly => Result(Change(s, zid, z.(state := Offline), s.res), Success)
    case Offline => Result(s, Success)
    case _ => Result(s, InvalidTransition)
  }

  // The last block an explicit flush may reach.
  function ZrwaEnd(c: Config, zid: nat, wp: nat): int {
    if wp + c.lbasPerZrwa - 1 < ZoneStart(c, zid) + c.cap - 1 then wp + c.lbasPerZrwa - 1
    else ZoneStart(c, zid) + c.cap - 1
  }

  function FlushZrwa(c: Config, s: State, slba: nat): Result
    requires 0 < c.cap && 0 < c.lbasPerZrwafg && LbaZone(c, slba) < |s.zones|
  {
    var zid := LbaZone(c, slba);
    var z := s.zones[zid];
    if !z.zrwav || !(z.wp <= slba <= ZrwaEnd(c, zid, z.wp)) then Result(s, InvalidZoneOperation)
    else if (slba - z.wp + 1) % c.lbasPerZrwafg != 0 then Result(s, InvalidField)
    else if !IsActive(z) then Result(s, InvalidZoneOperation)
    else if slba + 1 == ZoneStart(c, zid) + c.cap then
      Result(Change(s, zid, z.(wp := slba + 1, state := Full), Released(s.res, z)), Success)
    else Result(Change(s, zid, z.(wp := slba + 1), s.res), Success)
  }

  datatype Action = CloseAction | FinishAction | OpenAction | ResetAction | OfflineAction | FlushAction

  // __zmgmt_send
  function MgmtSend(c: Config, s: State, slba: nat, action: Action, option: bool): Result
    requires 0 < c.cap && 0 < c.lbasPerZrwafg && LbaZone(c, slba) < |s.zones|
  {
    var zid := LbaZone(c, slba);
    match action
    case CloseAction => CloseZone(s, zid)
    case FinishAction => FinishZone(s, zid)
    case OpenAction => OpenZoneCmd(c, s, zid, option)
    case ResetAction => ResetZone(c, s, zid)
    case OfflineAction => OfflineZone(s, zid)
    case FlushAction => FlushZrwa(c, s, slba)
  }

  // ----- Writes -----

  // __increase_write_ptr for a zone without a random write area
  function Advanced(c: Config, s: State, zid: nat, nrLba: nat): State
    requires zid < |s.zones|
  {
    var z := s.zones[zid];
    var wp := z.wp + nrLba;
    if wp == ZoneStart(c, zid) + c.cap then
      Change(s, zid, z.(wp := wp, state := Full), Add(Add(s.res, OpenZone, -1), ActiveZone, -1))
    else Change(s, zid, z.(wp := wp), s.res)
  }

  // Opening the zone a write goes to.
  function ImplicitOpen(c: Config, s: State, zid: nat): Result
    requires zid < |s.zones|
  {
    var z := s.zones[zid];
    match z.state
    case Empty =>
      if IsFull(c, s.res, ActiveZone) then Result(s, NoActiveZone)
      else if IsFull(c, s.res, OpenZone) then Result(s, NoOpenZone)
      else Result(Change(s, zid, z.(state := OpenedImpl), Add(Add(s.res, ActiveZone, 1), OpenZone, 1)), Success)
    case Closed =>
      if IsFull(c, s.res, OpenZone) then Result(s, NoOpenZone)
      else Result(Change(s, zid, z.(state := OpenedImpl), Add(s.res, OpenZone, 1)), Success)
    case OpenedImpl => Result(s, Success)
    case OpenedExpl => Result(s, Success)
    case Full => Result(s, ErrFull)
    case ReadOnly => Result(s, ErrReadOnly)
    case Offline => Result(s, ErrOffline)
  }

  // Where a write or append lands.
  function Target(s: State, zid: nat, slba: nat, append: bool): nat
    requires zid < |s.zones|
  {
    if append then s.zones[zid].wp else slba
  }

  // __zns_write once there is room in the write buffer; nrLba is at least 1.
  function Write(c: Config, s: State, slba: nat, nrLba: nat, append: bool): Result
    requires Ok(c) && LbaZone(c, slba) < |s.zones| && 0 < nrLba
  {
    var zid := LbaZone(c, slba);
    var at := Target(s, zid, slba, append);
    if nrLba * c.lbaBytes % c.writeUnitSize != 0 then Result(s, InvalidWrite)
    else if LbaZone(c, at) != LbaZone(c, at + nrLba - 1) then Result(s, ErrBoundary)
    else if at != s.zones[zid].wp then Result(s, InvalidWrite)
    else if s.zones[zid].state.Empty? && at != ZoneStart(c, zid) then Result(s, InvalidWrite)
    else
      var o := ImplicitOpen(c, s, zid);
      if o.status != Success then o else Result(Advanced(c, o.s, zid, nrLba), Success)
  }

  // ----- Every command keeps the invariant -----

  lemma CloseOk(c: Config, s: State, zid: nat)
    requires Inv(c, s) && zid < |s.zones|
    ensures var r := CloseZone(s, zid);
      && Inv(c, r.s) && (r.status == Success <==> IsActive(s.zones[zid]))
      && (r.status == Success ==> r.s.zones[zid] == s.zones[zid].(state := Closed))
      && (r.status != Success ==> r.status == InvalidTransition && r.s == s)
  {
    var z := s.zones[zid];
    if IsOpened(z) {
      ChangeOk(c, s, zid, z.(state := Closed), Add(s.res, OpenZone, -1));
    } else if z.state.Closed? {
      assert s.zones[zid].(state := Closed) == z;
    }
  }

  // Leaving the active states gives back exactly what the zone holds.
  lemma ReleasedCounts(c: Config, s: State, zid: nat, z: Zone)
    requires Inv(c, s) && zid < |s.zones| && ZoneOk(c, zid, z) && !IsActive(z)
    ensures Inv(c, Change(s, zid, z, Released(s.res, s.zones[zid])))
  {
    ChangeOk(c, s, zid, z, Released(s.res, s.zones[zid]));
  }

  lemma FinishOk(c: Config, s: State, zid: nat)
    requires Inv(c, s) && zid < |s.zones|
    ensures var r := FinishZone(s, zid); var st := s.zones[zid].state;
      && Inv(c, r.s) && (r.status == Success <==> !st.ReadOnly? && !st.Offline?)
      && (r.status == Success ==> r.s.zones[zid] == s.zones[zid].(state := Full))
      && (r.status != Success ==> r.status == InvalidTransition && r.s == s)
  {
    var z := s.zones[zid];
    assert ZoneOk(c, zid, z);
    if IsActive(z) || z.state.Empty? {
      ReleasedCounts(c, s, zid, z.(state := Full));
    }
  }

  lemma OpenKeeps(c: Config, s: State, zid: nat, zrwa: bool)
    requires Inv(c, s) && zid < |s.zones|
    ensures Inv(c, OpenZoneCmd(c, s, zid, zrwa).s)
  {
    var z := s.zones[zid];
    var r := OpenZoneCmd(c, s, zid, zrwa);
    if r.status == Success && !z.state.OpenedExpl? {
      OpenCounts(c, s, zid, zrwa);
      ChangeOk(c, s, zid, r.s.zones[zid], r.s.res);
    }
  }

  lemma OpenCounts(c: Config, s: State, zid: nat, zrwa: bool)
    requires Inv(c, s) && zid < |s.zones|
    ensures var o := OpenZoneCmd(c, s, zid, zrwa); var z := o.s.zones[zid];
      o.status == Success && !s.zones[zid].state.OpenedExpl? ==>
      && o.s == Change(s, zid, z, o.s.res) && ZoneOk(c, zid, z)
      && forall r: Resource ::
           Get(o.s.res, r) == Get(s.res, r) - One(Uses(r, s.zones[zid])) + One(Uses(r, z)) <= c.total(r)
  {
    assert ZoneOk(c, zid, s.zones[zid]);
    assert forall r: Resource :: Get(s.res, r) <= c.total(r);
  }

  // As many zones hold the resource as may.
  ghost predicate UsedUp(c: Config, s: State, r: Resource) {
    |Holders(r, s.zones)| == c.total(r)
  }

  lemma UsedUpIsFull(c: Config, s: State, r: Resource)
    requires Inv(c, s)
    ensures IsFull(c, s.res, r) <==> UsedUp(c, s, r)
  {
  }

  // A zone that is closed or empty is opened exactly if the resources it does not hold yet are
  // available; the first that is used up, in the order active, open, random write area, tells.
  lemma OpenOk(c: Config, s: State, zid: nat, zrwa: bool)
    requires Inv(c, s) && zid < |s.zones|
    ensures var r := OpenZoneCmd(c, s, zid, zrwa); var z := s.zones[zid];
      && Inv(c, r.s)
      && (r.status == InvalidTransition <==> z.state.Full? || IsDead(z))
      && (r.status == NoActiveZone <==> z.state.Empty? && UsedUp(c, s, ActiveZone))
      && (r.status == NoOpenZone <==>
            UsedUp(c, s, OpenZone) && (z.state.Closed? || (z.state.Empty? && !UsedUp(c, s, ActiveZone))))
      && (r.status == ZrwaRsrcUnavail <==>
            z.state.Empty? && !UsedUp(c, s, ActiveZone) && !UsedUp(c, s, OpenZone) && zrwa && UsedUp(c, s, ZrwaZone))
      && (r.status in {InvalidTransition, NoActiveZone, NoOpenZone, ZrwaRsrcUnavail} ==> r.s == s)
      && (r.status !in {InvalidTransition, NoActiveZone, NoOpenZone, ZrwaRsrcUnavail} ==>
            && r.status == Success
            && r.s.zones[zid] == z.(state := OpenedExpl, zrwav := z.zrwav || (z.state.Empty? && zrwa)))
  {
    hide UsedUp, Inv;
    UsedUpIsFull(c, s, ActiveZone);
    UsedUpIsFull(c, s, OpenZone);
    UsedUpIsFull(c, s, ZrwaZone);
    OpenKeeps(c, s, zid, zrwa);
  }

  lemma ResetOk(c: Config, s: State, zid: nat)
    requires Inv(c, s) && zid < |s.zones| && 0 < c.cap
    ensures var r := ResetZone(c, s, zid); var st := s.zones[zid].state;
      && Inv(c, r.s) && (r.status == Success <==> !st.ReadOnly? && !st.Offline?)
      && (r.status == Success ==> r.s.zones[zid] == Zone(Empty, ZoneStart(c, zid), false))
      && (r.status != Success ==> r.status == InvalidTransition && r.s == s)
  {
    ReleasedCounts(c, s, zid, Zone(Empty, ZoneStart(c, zid), false));
  }

  lemma OfflineOk(c: Config, s: State, zid: nat)
    requires Inv(c, s) && zid < |s.zones|
    ensures var r := OfflineZone(s, zid); var st := s.zones[zid].state;
      && Inv(c, r.s) && (r.status == Success <==> st.ReadOnly? || st.Offline?)
      && (r.status == Success ==> r.s.zones[zid] == s.zones[zid].(state := Offline))
      && (r.status != Success ==> r.status == InvalidTransition && r.s == s)
  {
    var z := s.zones[zid];
    if z.state.ReadOnly? { ChangeOk(c, s, zid, z.(state := Offline), s.res); }
    if z.state.Offline? { assert z.(state := Offline) == z; }
  }

  // A flush moves the write pointer forward by a multiple of the flush granularity, within the
  // random write area and the zone, and fills the zone exactly if it reaches its end.
  lemma FlushOk(c: Config, s: State, slba: nat)
    requires Ok(c) && Inv(c, s) && LbaZone(c, slba) < |s.zones|
    ensures var r := FlushZrwa(c, s, slba); var zid := LbaZone(c, slba); var z := s.zones[zid];
      && Inv(c, r.s)
      && (r.status == Success <==>
            z.zrwav && IsActive(z) && z.wp <= slba < z.wp + c.lbasPerZrwa && (slba + 1 - z.wp) % c.lbasPerZrwafg == 0)
      && (r.status == Success ==>
            && r.s.zones[zid].wp == slba + 1
            && (r.s.zones[zid].state == if slba + 1 == ZoneStart(c, zid) + c.cap then Full else z.state)
            && r.s.zones[zid].zrwav)
      && (r.status == InvalidField <==>
            z.zrwav && z.wp <= slba < z.wp + c.lbasPerZrwa && (slba + 1 - z.wp) % c.lbasPerZrwafg != 0)
      && (r.status != Success ==> r.s == s && (r.status == InvalidField || r.status == InvalidZoneOperation))
  {
    var zid := LbaZone(c, slba);
    var z := s.zones[zid];
    InZone(c, slba);
    assert ZoneOk(c, zid, z);
    var r := FlushZrwa(c, s, slba);
    if r.status == Success {
      if slba + 1 == ZoneStart(c, zid) + c.cap {
        ReleasedCounts(c, s, zid, r.s.zones[zid]);
      } else {
        ChangeOk(c, s, zid, r.s.zones[zid], s.res);
      }
    }
  }

  lemma InZone(c: Config, lba: nat)
    requires 0 < c.cap
    ensures ZoneStart(c, LbaZone(c, lba)) <= lba < ZoneStart(c, LbaZone(c, lba)) + c.cap
  {
  }

  lemma SameZone(c: Config, a: nat, b: nat, zid: nat)
    requires 0 < c.cap && a <= b && ZoneStart(c, zid) <= a < ZoneStart(c, zid) + c.cap
    ensures LbaZone(c, a) == zid
    ensures LbaZone(c, b) == zid <==> b < ZoneStart(c, zid) + c.cap
  {
    hide ZoneStart, LbaZone;
    InZone(c, a);
    InZone(c, b);
    Ordered(c, LbaZone(c, a), zid);
    Ordered(c, zid, LbaZone(c, a));
    Ordered(c, zid, LbaZone(c, b));
    Ordered(c, LbaZone(c, b), zid);
  }

  lemma Ordered(c: Config, i: nat, j: nat)
    ensures i < j ==> ZoneStart(c, i) + c.cap <= ZoneStart(c, j)
  {
    MulLe(i + 1, j, c.cap);
    assert (i + 1) * c.cap == i * c.cap + c.cap;
  }

  // A zone that is written to is opened like one the host opens, but for the random write area.
  lemma ImplicitOpenOk(c: Config, s: State, zid: nat)
    requires Inv(c, s) && zid < |s.zones|
    ensures var o := ImplicitOpen(c, s, zid); var z := s.zones[zid];
      && Inv(c, o.s)
      && (o.status == ErrFull <==> z.state.Full?)
      && (o.status == ErrReadOnly <==> z.state.ReadOnly?)
      && (o.status == ErrOffline <==> z.state.Offline?)
      && (o.status == NoActiveZone <==> z.state.Empty? && UsedUp(c, s, ActiveZone))
      && (o.status == NoOpenZone <==>
            UsedUp(c, s, OpenZone) && (z.state.Closed? || (z.state.Empty? && !UsedUp(c, s, ActiveZone))))
      && (o.status in {ErrFull, ErrReadOnly, ErrOffline, NoActiveZone, NoOpenZone} ==> o.s == s)
      && (o.status !in {ErrFull, ErrReadOnly, ErrOffline, NoActiveZone, NoOpenZone} ==>
            && o.status == Success && IsOpened(o.s.zones[zid])
            && o.s.zones[zid] == z.(state := if IsOpened(z) then z.state else OpenedImpl))
  {
    var z := s.zones[zid];
    assert ZoneOk(c, zid, z);
    assert forall r: Resource :: Get(s.res, r) <= c.total(r);
    UsedUpIsFull(c, s, ActiveZone);
    UsedUpIsFull(c, s, OpenZone);
    var o := ImplicitOpen(c, s, zid);
    if o.status == Success && !IsOpened(z) {
      ChangeOk(c, s, zid, o.s.zones[zid], o.s.res);
    }
  }

  lemma AdvancedOk(c: Config, s: State, zid: nat, nrLba: nat)
    requires Inv(c, s) && zid < |s.zones| && IsOpened(s.zones[zid]) && !s.zones[zid].zrwav
    requires s.zones[zid].wp + nrLba <= ZoneStart(c, zid) + c.cap
    ensures Inv(c, Advanced(c, s, zid, nrLba))
    ensures var z := Advanced(c, s, zid, nrLba).zones[zid];
      && z.wp == s.zones[zid].wp + nrLba
      && (z.state == if z.wp == ZoneStart(c, zid) + c.cap then Full else s.zones[zid].state)
  {
    var t := Advanced(c, s, zid, nrLba);
    assert ZoneOk(c, zid, s.zones[zid]);
    ChangeOk(c, s, zid, t.zones[zid], t.res);
  }

  // Whether a write of whole write units fits in front of the write pointer.
  predicate Fits(c: Config, z: Zone, zid: nat, at: nat, nrLba: nat)
    requires 0 < c.writeUnitSize
  {
    nrLba * c.lbaBytes % c.writeUnitSize == 0 && at == z.wp && at + nrLba <= ZoneStart(c, zid) + c.cap
  }

  // A write to a zone without a random write area succeeds exactly if it starts at the write
  // pointer, stays within the zone and the zone is or can be opened; it then moves the write
  // pointer over what it wrote and fills the zone exactly at its end.  A write that fails
  // changes nothing.
  lemma WriteOk(c: Config, s: State, slba: nat, nrLba: nat, append: bool)
    requires Ok(c) && Inv(c, s) && LbaZone(c, slba) < |s.zones| && 0 < nrLba && !s.zones[LbaZone(c, slba)].zrwav
    ensures var r := Write(c, s, slba, nrLba, append); var zid := LbaZone(c, slba); var z := s.zones[zid];
      var at := Target(s, zid, slba, append);
      && Inv(c, r.s) && (r.status != Success ==> r.s == s)
      && (r.status == Success <==> Fits(c, z, zid, at, nrLba) && ImplicitOpen(c, s, zid).status == Success)
      && (r.status == Success ==>
            && r.s.zones[zid].wp == at + nrLba && !r.s.zones[zid].zrwav
            && (r.s.zones[zid].state == if at + nrLba == ZoneStart(c, zid) + c.cap then Full
                                        else if IsOpened(z) then z.state else OpenedImpl))
  {
    hide UsedUp, Holders;
    var zid := LbaZone(c, slba);
    var z := s.zones[zid];
    var at := Target(s, zid, slba, append);
    InZone(c, slba);
    assert ZoneOk(c, zid, z);
    ImplicitOpenOk(c, s, zid);
    var o := ImplicitOpen(c, s, zid);
    if at == z.wp && (IsActive(z) || z.state.Empty?) {
      SameZone(c, at, at + nrLba - 1, zid);
      if o.status == Success && at + nrLba <= ZoneStart(c, zid) + c.cap {
        AdvancedOk(c, o.s, zid, nrLba);
      }
    }
  }

  // What a write that fails reports: a length that is not a number of write units, then a zone
  // boundary inside it, then a start off the write pointer, then what keeps its zone closed.
  lemma WriteFails(c: Config, s: State, slba: nat, nrLba: nat, append: bool)
    requires Ok(c) && Inv(c, s) && LbaZone(c, slba) < |s.zones| && 0 < nrLba
    ensures var status := Write(c, s, slba, nrLba, append).status; var zid := LbaZone(c, slba);
      var at, whole := Target(s, zid, slba, append), nrLba * c.lbaBytes % c.writeUnitSize == 0;
      && (status == InvalidWrite <==> !whole || (LbaZone(c, at) == LbaZone(c, at + nrLba - 1) && at != s.zones[zid].wp))
      && (status == ErrBoundary <==> whole && LbaZone(c, at) != LbaZone(c, at + nrLba - 1))
      && (status != InvalidWrite && status != ErrBoundary ==> status == ImplicitOpen(c, s, zid).status)
  {
    var zid := LbaZone(c, slba);
    assert ZoneOk(c, zid, s.zones[zid]);
    ImplicitOpenOk(c, s, zid);
  }

  lemma MgmtOk(c: Config, s: State, slba: nat, action: Action, option: bool)
    requires Ok(c) && Inv(c, s) && LbaZone(c, slba) < |s.zones|
    ensures var r := MgmtSend(c, s, slba, action, option); Inv(c, r.s) && (r.status != Success ==> r.s == s)
    ensures forall i :: 0 <= i < |s.zones| && i != LbaZone(c, slba) ==>
              MgmtSend(c, s, slba, action, option).s.zones[i] == s.zones[i]
  {
    var zid := LbaZone(c, slba);
    match action
    case CloseAction => CloseOk(c, s, zid);
    case FinishAction => FinishOk(c, s, zid);
    case OpenAction => OpenOk(c, s, zid, option);
    case ResetAction => ResetOk(c, s, zid);
    case OfflineAction => OfflineOk(c, s, zid);
    case FlushAction => FlushOk(c, s, slba);
  }

  // ----- Select all -----

  lemma StartInZone(c: Config, zid: nat)
    requires 0 < c.cap
    ensures LbaZone(c, ZoneStart(c, zid)) == zid
  {
    SameZone(c, ZoneStart(c, zid), ZoneStart(c, zid), zid);
  }

  // The command for one zone.
  function SendTo(c: Config, s: State, zid: nat, action: Action, option: bool): (r: Result)
    requires 0 < c.cap && 0 < c.lbasPerZrwafg && zid < |s.zones|
    ensures |r.s.zones| == |s.zones|
  {
    StartInZone(c, zid);
    MgmtSend(c, s, ZoneStart(c, zid), action, option)
  }

  // The loop of zns_zmgmt_send over zones zid, zid + 1, ...
  function SendFrom(c: Config, s: State, zid: nat, action: Action, option: bool): (t: State)
    requires 0 < c.cap && 0 < c.lbasPerZrwafg && |s.zones| == c.nrZones && zid <= c.nrZones
    ensures |t.zones| == c.nrZones
    decreases c.nrZones - zid
  {
    if zid == c.nrZones then s else SendFrom(c, SendTo(c, s, zid, action, option).s, zid + 1, action, option)
  }

  // But for opening, what a zone becomes depends on that zone alone.
  lemma OwnZoneOnly(c: Config, s: State, t: State, zid: nat, action: Action, option: bool)
    requires Ok(c) && zid < |s.zones| == |t.zones| && s.zones[zid] == t.zones[zid] && !action.OpenAction?
    ensures SendTo(c, s, zid, action, option).s.zones[zid] == SendTo(c, t, zid, action, option).s.zones[zid]
  {
    StartInZone(c, zid);
  }

  lemma SendToOk(c: Config, s: State, zid: nat, action: Action, option: bool)
    requires Ok(c) && Inv(c, s) && zid < c.nrZones
    ensures var r := SendTo(c, s, zid, action, option);
      && Inv(c, r.s) && forall i :: 0 <= i < c.nrZones && i != zid ==> r.s.zones[i] == s.zones[i]
  {
    StartInZone(c, zid);
    MgmtOk(c, s, ZoneStart(c, zid), action, option);
  }

  // With select_all every other command does to each zone what it does to that zone alone.
  lemma {:induction false} SendFromOk(c: Config, s: State, zid: nat, action: Action, option: bool)
    requires Ok(c) && Inv(c, s) && zid <= c.nrZones
    ensures Inv(c, SendFrom(c, s, zid, action, option))
    ensures forall i :: 0 <= i < zid ==> SendFrom(c, s, zid, action, option).zones[i] == s.zones[i]
    ensures !action.OpenAction? ==> forall i :: zid <= i < c.nrZones ==>
              SendFrom(c, s, zid, action, option).zones[i] == SendTo(c, s, i, action, option).s.zones[i]
    decreases c.nrZones - zid
  {
    hide Inv, SendTo;
    Sizes(c, s);
    if zid == c.nrZones {
    } else {
      SendToOk(c, s, zid, action, option);
      var t := SendTo(c, s, zid, action, option).s;
      Sizes(c, t);
      SendFromOk(c, t, zid + 1, action, option);
      if !action.OpenAction? {
        forall i | zid < i < c.nrZones
          ensures SendTo(c, t, i, action, option).s.zones[i] == SendTo(c, s, i, action, option).s.zones[i]
        {
          OwnZoneOnly(c, s, t, i, action, option);
        }
      }
    }
  }

  lemma Sizes(c: Config, s: State)
    requires Inv(c, s)
    ensures |s.zones| == c.nrZones && 0 < c.cap
  {
  }

  // After finishing or resetting all zones no resource is held, after closing all none is open.
  lemma AllReleased(c: Config, s: State, action: Action, option: bool)
    requires Ok(c) && Inv(c, s)
    ensures var t := SendFrom(c, s, 0, action, option);
      && (action.FinishAction? || action.ResetAction? ==> forall r: Resource :: Get(t.res, r) == 0)
      && (action.CloseAction? ==> t.res.open == 0)
  {
    SendFromOk(c, s, 0, action, option);
    var t := SendFrom(c, s, 0, action, option);
    forall r: Resource | action.FinishAction? || action.ResetAction? || (action.CloseAction? && r == OpenZone)
      ensures Get(t.res, r) == 0
    {
      forall i: nat | i < |t.zones| ensures !Uses(r, t.zones[i]) {
        StartInZone(c, i);
        assert t.zones[i] == SendTo(c, s, i, action, option).s.zones[i];
      }
      assert Holders(r, t.zones) == {};
    }
    assert t.res.open == Get(t.res, OpenZone);
  }

  // What opening all zones makes of a zone z: it is opened, or it cannot be in its state, or a
  // resource it lacks is used up in the end.
  ghost predicate OpenedOrNot(c: Config, t: State, z: Zone, z': Zone, zrwa: bool) {
    if z.state.Full? || IsDead(z) then z' == z
    else
      || z' == z.(state := OpenedExpl, zrwav := z.zrwav || (z.state.Empty? && zrwa))
      || (z' == z && z.state.Closed? && UsedUp(c, t, OpenZone))
      || (z' == z && z.state.Empty?
          && (UsedUp(c, t, ActiveZone) || UsedUp(c, t, OpenZone) || (zrwa && UsedUp(c, t, ZrwaZone))))
  }

  // What keeps a zone in that state from being opened.
  predicate Blocked(c: Config, a: Acquired, st: ZoneState, zrwa: bool) {
    || (st.Closed? && IsFull(c, a, OpenZone))
    || (st.Empty? && (IsFull(c, a, ActiveZone) || IsFull(c, a, OpenZone) || (zrwa && IsFull(c, a, ZrwaZone))))
  }

  lemma OpenStep(c: Config, s: State, zid: nat, zrwa: bool)
    requires zid < |s.zones|
    ensures var r := OpenZoneCmd(c, s, zid, zrwa); var z := s.zones[zid];
      && (forall x: Resource :: Get(s.res, x) <= Get(r.s.res, x))
      && (if z.state.Full? || IsDead(z) || Blocked(c, s.res, z.state, zrwa) then r.s == s
          else r.s.zones[zid] == z.(state := OpenedExpl, zrwav := z.zrwav || (z.state.Empty? && zrwa)))
  {
  }

  lemma Bounded(c: Config, s: State)
    requires Inv(c, s)
    ensures |s.zones| == c.nrZones && forall x: Resource :: Get(s.res, x) <= c.total(x)
  {
  }

  lemma OpenGrows(c: Config, s: State, zid: nat, zrwa: bool)
    requires Ok(c) && Inv(c, s) && zid < |s.zones| == c.nrZones
    ensures var r := SendTo(c, s, zid, OpenAction, zrwa); var z := s.zones[zid];
      && (forall x: Resource :: Get(s.res, x) <= Get(r.s.res, x) <= c.total(x))
      && (if z.state.Full? || IsDead(z) || Blocked(c, s.res, z.state, zrwa) then r.s == s
          else r.s.zones[zid] == z.(state := OpenedExpl, zrwav := z.zrwav || (z.state.Empty? && zrwa)))
  {
    hide Inv, OpenZoneCmd, Blocked;
    SendToOk(c, s, zid, OpenAction, zrwa);
    StartInZone(c, zid);
    OpenStep(c, s, zid, zrwa);
    Bounded(c, SendTo(c, s, zid, OpenAction, zrwa).s);
  }

  lemma BlockedStays(c: Config, a: Acquired, b: Acquired, st: ZoneState, zrwa: bool)
    requires Blocked(c, a, st, zrwa) && forall x: Resource :: Get(a, x) <= Get(b, x) <= c.total(x)
    ensures Blocked(c, b, st, zrwa)
  {
  }

  // Zones in a state that is blocked stay as they are, and the counters never go down.
  lemma {:induction false} OpenFrom(c: Config, s: State, zid: nat, zrwa: bool, st: ZoneState)
    requires Ok(c) && Inv(c, s) && zid <= c.nrZones
    ensures var t := SendFrom(c, s, zid, OpenAction, zrwa);
      && Inv(c, t) && (forall x: Resource :: Get(s.res, x) <= Get(t.res, x) <= c.total(x))
      && (Blocked(c, s.res, st, zrwa) ==>
            forall i :: zid <= i < c.nrZones && s.zones[i].state == st ==> t.zones[i] == s.zones[i])
    decreases c.nrZones - zid
  {
    hide SendTo;
    if zid == c.nrZones {
    } else {
      OpenGrows(c, s, zid, zrwa);
      SendToOk(c, s, zid, OpenAction, zrwa);
      var t := SendTo(c, s, zid, OpenAction, zrwa).s;
      OpenFrom(c, t, zid + 1, zrwa, st);
      SendFromOk(c, t, zid + 1, OpenAction, zrwa);
      if Blocked(c, s.res, st, zrwa) { BlockedStays(c, s.res, t.res, st, zrwa); }
    }
  }

  // With select_all zones are opened in ascending order as long as the resources last: of two
  // zones in the same state the second is not opened if the first is not.
  lemma {:induction false} OpenAll(c: Config, s: State, zid: nat, zrwa: bool)
    requires Ok(c) && Inv(c, s) && zid <= c.nrZones
    ensures var t := SendFrom(c, s, zid, OpenAction, zrwa);
      && (forall i :: zid <= i < c.nrZones ==> OpenedOrNot(c, t, s.zones[i], t.zones[i], zrwa))
      && (forall i, j | zid <= i < j < c.nrZones && s.zones[i].state == s.zones[j].state ::
            t.zones[i] == s.zones[i] && !s.zones[i].state.OpenedExpl? ==> t.zones[j] == s.zones[j])
    decreases c.nrZones - zid
  {
    hide SendTo, UsedUp, Inv;
    Sizes(c, s);
    if zid == c.nrZones {
    } else {
      var z := s.zones[zid];
      OpenGrows(c, s, zid, zrwa);
      SendToOk(c, s, zid, OpenAction, zrwa);
      var s1 := SendTo(c, s, zid, OpenAction, zrwa).s;
      Sizes(c, s1);
      SendFromOk(c, s1, zid + 1, OpenAction, zrwa);
      OpenFrom(c, s1, zid + 1, zrwa, z.state);
      OpenAll(c, s1, zid + 1, zrwa);
      var t := SendFrom(c, s, zid, OpenAction, zrwa);
      if Blocked(c, s.res, z.state, zrwa) {
        BlockedStays(c, s.res, t.res, z.state, zrwa);
        UsedUpIsFull(c, t, ActiveZone);
        UsedUpIsFull(c, t, OpenZone);
        UsedUpIsFull(c, t, ZrwaZone);
      }
    }
  }

  // ----- Whole runs -----

  datatype Command =
    | Mgmt(slba: nat, action: Action, option: bool)
    | Put(slba: nat, nrLba: nat, append: bool)

  // The zones together with the successful writes to each since its last reset.
  datatype Tracked = Tracked(s: State, log: seq<seq<(nat, nat)>>)

  // Writes to a zone with a random write area take another path, which is not modelled.
  predicate Possible(c: Config, t: Tracked, cmd: Command)
    requires 0 < c.cap
  {
    && LbaZone(c, cmd.slba) < |t.s.zones|
    && (cmd.Put? ==> 0 < cmd.nrLba && !t.s.zones[LbaZone(c, cmd.slba)].zrwav)
  }

  function Step(c: Config, t: Tracked, cmd: Command): (u: Tracked)
    requires 0 < c.cap && 0 < c.lbasPerZrwafg && 0 < c.writeUnitSize && 0 < c.lbasPerZrwa && 0 < c.nrZones
    requires Possible(c, t, cmd) && |t.log| == |t.s.zones|
    ensures |u.log| == |u.s.zones| == |t.s.zones|
  {
    var zid := LbaZone(c, cmd.slba);
    match cmd
    case Mgmt(slba, action, option) =>
      var r := MgmtSend(c, t.s, slba, action, option);
      Tracked(r.s, if action.ResetAction? && r.status == Success then t.log[zid := []] else t.log)
    case Put(slba, nrLba, append) =>
      var r := Write(c, t.s, slba, nrLba, append);
      Tracked(r.s, if r.status == Success then t.log[zid := t.log[zid] + [(Target(t.s, zid, slba, append), nrLba)]]
                   else t.log)
  }

  // The writes cover [from, to) in order, without gaps and without overlap.
  ghost predicate Cover(log: seq<(nat, nat)>, from: nat, to: nat) {
    if log == [] then from == to
    else
      var w := log[|log| - 1];
      0 < w.1 && w.0 + w.1 == to && Cover(log[..|log| - 1], from, w.0)
  }

  // What was written to a zone without a random write area is all that lies before its write
  // pointer.
  ghost predicate LogOk(c: Config, zid: nat, z: Zone, log: seq<(nat, nat)>) {
    if z.zrwav then log == [] else Cover(log, ZoneStart(c, zid), z.wp)
  }

  ghost predicate TrackedOk(c: Config, t: Tracked) {
    && Inv(c, t.s) && |t.log| == |t.s.zones|
    && forall i :: 0 <= i < |t.log| ==> LogOk(c, i, t.s.zones[i], t.log[i])
  }

  lemma CoverMore(log: seq<(nat, nat)>, from: nat, to: nat, n: nat)
    requires Cover(log, from, to) && 0 < n
    ensures Cover(log + [(to, n)], from, to + n)
  {
    assert (log + [(to, n)])[..|log|] == log;
  }

  // A management command moves the write pointer of a zone only by resetting it or, in a random
  // write area, by flushing, and gives a zone such an area only while nothing is written to it.
  lemma MgmtPointer(c: Config, s: State, slba: nat, action: Action, option: bool)
    requires Ok(c) && Inv(c, s) && LbaZone(c, slba) < |s.zones|
    ensures var zid := LbaZone(c, slba); var z := s.zones[zid];
      var r := MgmtSend(c, s, slba, action, option); var z' := r.s.zones[zid];
      && (action.ResetAction? && r.status == Success ==> z'.wp == ZoneStart(c, zid) && !z'.zrwav)
      && (!(action.ResetAction? && r.status == Success) ==>
            && (z.zrwav ==> z'.zrwav)
            && (!z.zrwav ==> z'.wp == z.wp && (z'.zrwav ==> z.state.Empty?)))
  {
    var zid := LbaZone(c, slba);
    match action
    case CloseAction => CloseOk(c, s, zid);
    case FinishAction => FinishOk(c, s, zid);
    case OpenAction => OpenOk(c, s, zid, option);
    case ResetAction => ResetOk(c, s, zid);
    case OfflineAction => OfflineOk(c, s, zid);
    case FlushAction =>
      FlushOk(c, s, slba);
      assert FlushZrwa(c, s, slba).status == Success ==> s.zones[zid].zrwav && FlushZrwa(c, s, slba).s.zones[zid].zrwav;
  }

  lemma EmptyLog(log: seq<(nat, nat)>, at: nat)
    requires Cover(log, at, at)
    ensures log == []
  {
    if log != [] { CoverGrows(log[..|log| - 1], at, log[|log| - 1].0); }
  }

  lemma {:induction false} CoverGrows(log: seq<(nat, nat)>, from: nat, to: nat)
    requires Cover(log, from, to)
    ensures from <= to
  {
    if log == [] {
    } else {
      CoverGrows(log[..|log| - 1], from, log[|log| - 1].0);
    }
  }

  lemma StepOk(c: Config, t: Tracked, cmd: Command)
    requires Ok(c) && TrackedOk(c, t) && Possible(c, t, cmd)
    ensures TrackedOk(c, Step(c, t, cmd))
  {
    var zid := LbaZone(c, cmd.slba);
    var u := Step(c, t, cmd);
    var z := t.s.zones[zid];
    assert LogOk(c, zid, z, t.log[zid]) && ZoneOk(c, zid, z);
    match cmd {
      case Mgmt(slba, action, option) =>
        MgmtOk(c, t.s, slba, action, option);
        MgmtPointer(c, t.s, slba, action, option);
        if z.state.Empty? { EmptyLog(t.log[zid], z.wp); }
      case Put(slba, nrLba, append) =>
        WriteOk(c, t.s, slba, nrLba, append);
        WriteElsewhere(c, t.s, slba, nrLba, append);
        CoverMore(t.log[zid], ZoneStart(c, zid), z.wp, nrLba);
    }
    forall i | 0 <= i < |u.log| ensures LogOk(c, i, u.s.zones[i], u.log[i]) {
      if i != zid { assert LogOk(c, i, t.s.zones[i], t.log[i]); }
    }
  }

  lemma WriteElsewhere(c: Config, s: State, slba: nat, nrLba: nat, append: bool)
    requires Ok(c) && LbaZone(c, slba) < |s.zones| && 0 < nrLba
    ensures var r := Write(c, s, slba, nrLba, append);
      |r.s.zones| == |s.zones| && forall i :: 0 <= i < |s.zones| && i != LbaZone(c, slba) ==> r.s.zones[i] == s.zones[i]
  {
  }

  ghost predicate RunPossible(c: Config, t: Tracked, cmds: seq<Command>)
    requires Ok(c) && |t.log| == |t.s.zones|
    decreases cmds
  {
    cmds == [] || (Possible(c, t, cmds[0]) && RunPossible(c, Step(c, t, cmds[0]), cmds[1..]))
  }

  ghost function After(c: Config, t: Tracked, cmds: seq<Command>): Tracked
    requires Ok(c) && |t.log| == |t.s.zones| && RunPossible(c, t, cmds)
    decreases cmds
  {
    if cmds == [] then t else After(c, Step(c, t, cmds[0]), cmds[1..])
  }

  // __init_descriptor and __init_resource
  function Init(c: Config): Tracked {
    Tracked(State(seq(c.nrZones, i requires 0 <= i => Zone(Empty, ZoneStart(c, i), false)), Acquired(0, 0, 0)),
            seq(c.nrZones, _ => []))
  }

  lemma InitOk(c: Config)
    requires Ok(c)
    ensures TrackedOk(c, Init(c))
  {
    forall r: Resource ensures Holders(r, Init(c).s.zones) == {} {
    }
  }

  // Over every run the counters are the numbers of zones holding each resource and within their
  // totals, every write pointer is where it belongs, and what was written to a zone since its
  // last reset is exactly what lies between its start and its write pointer.
  lemma {:induction false} RunOk(c: Config, t: Tracked, cmds: seq<Command>)
    requires Ok(c) && TrackedOk(c, t) && RunPossible(c, t, cmds)
    ensures TrackedOk(c, After(c, t, cmds))
    decreases cmds
  {
    if cmds == [] {
    } else {
      StepOk(c, t, cmds[0]);
      RunOk(c, Step(c, t, cmds[0]), cmds[1..]);
    }
  }
}
