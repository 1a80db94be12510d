// The zoned FTL as the code runs it: descriptors and counters updated in place, one method for
// each function of zns_mgmt_send.c and for __zns_write and its helpers, proved against ZoneModel.
module Zns {
  import opened ZoneModel

  class ZnsFtl {
    const c: Config
    const zoneDescs: array<Zone>
    var acquired: Acquired

    ghost function S(): State
      reads this, zoneDescs
    {
      State(zoneDescs[..], acquired)
    }

    ghost predicate Valid()
      reads this, zoneDescs
    {
      Ok(c) && Inv(c, S())
    }

    // __init_descriptor and __init_resource
    constructor (c: Config)
      requires Ok(c)
      ensures Valid() && this.c == c && S() == Init(c).s && fresh(zoneDescs)
    {
      this.c := c;
      zoneDescs := new Zone[c.nrZones](i requires 0 <= i => Zone(Empty, ZoneStart(c, i), false));
      acquired := Acquired(0, 0, 0);
      new;
      InitOk(c);
      assert zoneDescs[..] == Init(c).s.zones;
    }

    // acquire_zone_resource
    method Acquire(r: Resource) returns (ok: bool)
      modifies this`acquired
      ensures ok <==> Get(old(acquired), r) < c.total(r)
      ensures acquired == if ok then Add(old(acquired), r, 1) else old(acquired)
    {
      ok := Get(acquired, r) < c.total(r);
      if ok {
        acquired := Add(acquired, r, 1);
      }
    }

    // release_zone_resource, with what it asserts
    method Release(r: Resource)
      requires Get(acquired, r) > 0
      modifies this`acquired
      ensures acquired == Add(old(acquired), r, -1)
    {
      acquired := Add(acquired, r, -1);
    }

    // change_zone_state
    method ChangeState(zid: nat, state: ZoneState)
      requires zid < zoneDescs.Length
      modifies zoneDescs
      ensures zoneDescs[..] == old(zoneDescs[..])[zid := old(zoneDescs[zid]).(state := state)]
    {
      zoneDescs[zid] := zoneDescs[zid].(state := state);
    }

    method Close(zid: nat) returns (status: Status)
      requires Valid() && zid < zoneDescs.Length
      modifies this, zoneDescs
      ensures Valid() && Result(S(), status) == CloseZone(old(S()), zid)
    {
      CloseOk(c, S(), zid);
      match zoneDescs[zid].state {
        case OpenedImpl | OpenedExpl =>
          ReleaseOk(c, S(), zid, OpenZone);
          ChangeState(zid, Closed);
          Release(OpenZone);
          status := Success;
        case Closed =>
          status := Success;
        case _ =>
          status := InvalidTransition;
      }
    }

    // The cases of finish and reset that leave the active states.
    method ReleaseAll(zid: nat)
      requires Valid() && zid < zoneDescs.Length && IsActive(zoneDescs[zid])
      modifies this`acquired
      ensures acquired == Released(old(acquired), zoneDescs[zid])
    {
      if IsOpened(zoneDescs[zid]) { ReleaseOk(c, S(), zid, OpenZone); }
      ReleaseOk(c, S(), zid, ActiveZone);
      if zoneDescs[zid].zrwav { ReleaseOk(c, S(), zid, ZrwaZone); }
      if zoneDescs[zid].state != Closed {
        Release(OpenZone);
      }
      Release(ActiveZone);
      if zoneDescs[zid].zrwav {
        Release(ZrwaZone);
      }
    }

    method Finish(zid: nat) returns (status: Status)
      requires Valid() && zid < zoneDescs.Length
      modifies this, zoneDescs
      ensures Valid() && Result(S(), status) == FinishZone(old(S()), zid)
    {
      FinishOk(c, S(), zid);
      status := Success;
      match zoneDescs[zid].state {
        case OpenedImpl | OpenedExpl | Closed =>
          ReleaseAll(zid);
          ChangeState(zid, Full);
        case Empty =>
          ChangeState(zid, Full);
        case Full =>
        case _ =>
          status := InvalidTransition;
      }
    }

    method Open(zid: nat, zrwa: bool) returns (status: Status)
      requires Valid() && zid < zoneDescs.Length
      modifies this, zoneDescs
      ensures Valid() && Result(S(), status) == OpenZoneCmd(c, old(S()), zid, zrwa)
    {
      OpenKeeps(c, S(), zid, zrwa);
      assert forall r: Resource :: Get(S().res, r) <= c.total(r);
      ghost var r := OpenZoneCmd(c, S(), zid, zrwa);
      hide Inv;
      var state := zoneDescs[zid].state;
      if state.Empty? {
        if Get(acquired, ActiveZone) == c.total(ActiveZone) {
          return NoActiveZone;
        }
        if Get(acquired, OpenZone) == c.total(OpenZone) {
          return NoOpenZone;
        }
        if zrwa {
          if Get(acquired, ZrwaZone) == c.total(ZrwaZone) {
            return ZrwaRsrcUnavail;
          }
          var got := Acquire(ZrwaZone);
          zoneDescs[zid] := zoneDescs[zid].(zrwav := true);
        }
        var got := Acquire(ActiveZone);
      }
      if state.Empty? || state.Closed? {
        var got := Acquire(OpenZone);
        if !got {
          return NoOpenZone;
        }
      }
      if state.Empty? || state.Closed? || state.OpenedImpl? {
        ChangeState(zid, OpenedExpl);
        assert S().zones == r.s.zones;
        return Success;
      }
      status := if state.OpenedExpl? then Success else InvalidTransition;
    }

    method Reset(zid: nat) returns (status: Status)
      requires Valid() && zid < zoneDescs.Length
      modifies this, zoneDescs
      ensures Valid() && Result(S(), status) == ResetZone(c, old(S()), zid)
    {
      ResetOk(c, S(), zid);
      ghost var r := ResetZone(c, S(), zid);
      hide Inv;
      match zoneDescs[zid].state {
        case ReadOnly | Offline =>
          return InvalidTransition;
        case OpenedImpl | OpenedExpl | Closed =>
          ReleaseAll(zid);
        case _ =>
      }
      ChangeState(zid, Empty);
      zoneDescs[zid] := zoneDescs[zid].(wp := ZoneStart(c, zid), zrwav := false);
      assert S().zones == r.s.zones;
      status := Success;
    }

    method SetOffline(zid: nat) returns (status: Status)
      requires Valid() && zid < zoneDescs.Length
      modifies this, zoneDescs
      ensures Valid() && Result(S(), status) == OfflineZone(old(S()), zid)
    {
      OfflineOk(c, S(), zid);
      status := Success;
      match zoneDescs[zid].state {
        case ReadOnly => ChangeState(zid, Offline);
        case Offline =>
        case _ => status := InvalidTransition;
      }
    }

    method FlushExplicitZrwa(slba: nat) returns (status: Status)
      requires Valid() && LbaZone(c, slba) < zoneDescs.Length
      modifies this, zoneDescs
      ensures Valid() && Result(S(), status) == FlushZrwa(c, old(S()), slba)
    {
      FlushOk(c, S(), slba);
      ghost var r := FlushZrwa(c, S(), slba);
      hide Inv;
      var zid := LbaZone(c, slba);
      var wp := zoneDescs[zid].wp;
      if !zoneDescs[zid].zrwav {
        return InvalidZoneOperation;
      }
      if !(wp <= slba <= ZrwaEnd(c, zid, wp)) {
        return InvalidZoneOperation;
      }
      if (slba - wp + 1) % c.lbasPerZrwafg != 0 {
        return InvalidField;
      }
      match zoneDescs[zid].state {
        case OpenedExpl | OpenedImpl | Closed =>
          if slba + 1 == ZoneStart(c, zid) + c.cap {
            ReleaseAll(zid);
            ChangeState(zid, Full);
          }
          zoneDescs[zid] := zoneDescs[zid].(wp := slba + 1);
          assert S().zones == r.s.zones;
          status := Success;
        case _ =>
          status := InvalidZoneOperation;
      }
    }

    // __zmgmt_send
    method Send(slba: nat, action: Action, option: bool) returns (status: Status)
      requires Valid() && LbaZone(c, slba) < zoneDescs.Length
      modifies this, zoneDescs
      ensures Valid() && Result(S(), status) == MgmtSend(c, old(S()), slba, action, option)
    {
      var zid := LbaZone(c, slba);
      match action {
        case CloseAction => status := Close(zid);
        case FinishAction => status := Finish(zid);
        case OpenAction => status := Open(zid, option);
        case ResetAction => status := Reset(zid);
        case OfflineAction => status := SetOffline(zid);
        case FlushAction => status := FlushExplicitZrwa(slba);
      }
    }

    // zns_zmgmt_send
    method ZmgmtSend(slba: nat, selectAll: bool, action: Action, option: bool) returns (status: Status)
      requires Valid() && (!selectAll ==> LbaZone(c, slba) < zoneDescs.Length)
      modifies this, zoneDescs
      ensures Valid()
      ensures selectAll ==> status == Success && S() == SendFrom(c, old(S()), 0, action, option)
      ensures !selectAll ==> Result(S(), status) == MgmtSend(c, old(S()), slba, action, option)
    {
      if selectAll {
        ghost var t := SendFrom(c, S(), 0, action, option);
        for zid := 0 to c.nrZones
          invariant Valid() && SendFrom(c, S(), zid, action, option) == t
        {
          StartInZone(c, zid);
          var ignored := Send(ZoneStart(c, zid), action, option);
        }
        status := Success;
      } else {
        status := Send(slba, action, option);
      }
    }

    // __increase_write_ptr for a zone without a random write area; the write boundary it checks
    // is never passed.
    method IncreaseWritePtr(zid: nat, nrLba: nat)
      requires Valid() && zid < zoneDescs.Length && IsOpened(zoneDescs[zid]) && !zoneDescs[zid].zrwav
      requires zoneDescs[zid].wp + nrLba <= ZoneStart(c, zid) + c.cap
      modifies this, zoneDescs
      ensures Valid() && S() == Advanced(c, old(S()), zid, nrLba)
    {
      AdvancedOk(c, S(), zid, nrLba);
      ReleaseOk(c, S(), zid, OpenZone);
      ReleaseOk(c, S(), zid, ActiveZone);
      ghost var t := Advanced(c, S(), zid, nrLba);
      hide Inv;
      zoneDescs[zid] := zoneDescs[zid].(wp := zoneDescs[zid].wp + nrLba);
      if zoneDescs[zid].wp == ZoneStart(c, zid) + c.cap {
        Release(OpenZone);
        Release(ActiveZone);
        ChangeState(zid, Full);
      }
      assert S().zones == t.zones;
    }

    // The switch of __zns_write on the zone state.
    method OpenForWrite(zid: nat) returns (status: Status)
      requires Valid() && zid < zoneDescs.Length
      modifies this, zoneDescs
      ensures Valid() && Result(S(), status) == ImplicitOpen(c, old(S()), zid)
    {
      ImplicitOpenOk(c, S(), zid);
      assert forall r: Resource :: Get(S().res, r) <= c.total(r);
      var state := zoneDescs[zid].state;
      match state {
        case Full => return ErrFull;
        case ReadOnly => return ErrReadOnly;
        case Offline => return ErrOffline;
        case OpenedImpl | OpenedExpl => return Success;
        case _ =>
      }
      if state.Empty? {
        if Get(acquired, ActiveZone) == c.total(ActiveZone) {
          return NoActiveZone;
        }
        if Get(acquired, OpenZone) == c.total(OpenZone) {
          return NoOpenZone;
        }
        var got := Acquire(ActiveZone);
      }
      var got := Acquire(OpenZone);
      if !got {
        return NoOpenZone;
      }
      ChangeState(zid, OpenedImpl);
      status := Success;
    }

    // __zns_write; without room in the write buffer the command is tried again later.
    method ZnsWrite(slba: nat, nrLba: nat, append: bool, buffered: bool) returns (done: bool, status: Status)
      requires Valid() && LbaZone(c, slba) < zoneDescs.Length && 0 < nrLba && !zoneDescs[LbaZone(c, slba)].zrwav
      modifies this, zoneDescs
      ensures Valid() && done == buffered
      ensures done ==> Result(S(), status) == Write(c, old(S()), slba, nrLba, append)
      ensures !done ==> S() == old(S())
    {
      status := Success;
      if !buffered {
        return false, status;
      }
      WriteOk(c, S(), slba, nrLba, append);
      done := true;
      var zid := LbaZone(c, slba);
      var at := if append then zoneDescs[zid].wp else slba;
      if nrLba * c.lbaBytes % c.writeUnitSize != 0 {
        return done, InvalidWrite;
      }
      if LbaZone(c, at) != LbaZone(c, at + nrLba - 1) {
        return done, ErrBoundary;
      }
      if at != zoneDescs[zid].wp {
        return done, InvalidWrite;
      }
      if zoneDescs[zid].state.Empty? && at != ZoneStart(c, zid) {
        return done, InvalidWrite;
      }
      ImplicitOpenOk(c, S(), zid);
      status := OpenForWrite(zid);
      if status == Success {
        IncreaseWritePtr(zid, nrLba);
      }
    }
  }
}
