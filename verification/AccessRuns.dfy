/** What holds over every run of the access state from the empty one. */
module AccessRuns {
  import opened Options
  import opened AccessEvents
  import opened Access
  import opened AccessInvariant

  /** The state after a sequence of attempted events; a refused one changes nothing. */
  ghost function After(rules: DeviceRules, id: string, events: seq<SignedAccessEvent>): State {
    if events == [] then Empty(id)
    else
      var st := After(rules, id, events[..|events| - 1]);
      var e := events[|events| - 1];
      if Refusal(rules, st, e) == None then Effect(st, e) else st
  }

  /** The `i`-th event of the run is applied. */
  ghost predicate AppliedAt(rules: DeviceRules, id: string, events: seq<SignedAccessEvent>, i: nat)
    requires i < |events|
  {
    Refusal(rules, After(rules, id, events[..i]), events[i]) == None
  }

  ghost function AppliedCount(rules: DeviceRules, id: string, events: seq<SignedAccessEvent>): nat {
    if events == [] then 0
    else
      AppliedCount(rules, id, events[..|events| - 1]) +
      if AppliedAt(rules, id, events, |events| - 1) then 1 else 0
  }

  lemma {:induction false} RunsKeepInv(rules: DeviceRules, id: string, events: seq<SignedAccessEvent>)
    ensures Inv(rules, After(rules, id, events))
  {
    if events == [] {
    } else {
      var before := events[..|events| - 1];
      RunsKeepInv(rules, id, before);
      var st, e := After(rules, id, before), events[|events| - 1];
      if Refusal(rules, st, e) == None { EffectKeepsInv(rules, st, e); }
    }
  }

  lemma EffectCommits(st: State, e: SignedAccessEvent)
    requires ContentRefusal(st, e) == None
    ensures Effect(st, e).revision == st.revision + 1 && Effect(st, e).workspaceId == st.workspaceId
    ensures Effect(st, e).lastEventId == Some(e.eventId)
  {
  }

  /** The revision is the number of applied events. */
  lemma {:induction false} RevisionCountsEvents(rules: DeviceRules, id: string, events: seq<SignedAccessEvent>)
    ensures After(rules, id, events).revision == AppliedCount(rules, id, events) <= U64_MAX
    ensures After(rules, id, events).workspaceId == id
  {
    if events == [] {
    } else {
      var before := events[..|events| - 1];
      RevisionCountsEvents(rules, id, before);
      var st, e := After(rules, id, before), events[|events| - 1];
      if Refusal(rules, st, e) == None { EffectCommits(st, e); }
    }
  }

  // ---------------------------------------------------------------- the log decides

  /** The `i`-th event is applied and `sets` something that no later applied event `touches`. */
  ghost predicate LastWord(
    rules: DeviceRules, id: string, events: seq<SignedAccessEvent>, i: nat,
    sets: SignedAccessEvent -> bool, touches: SignedAccessEvent -> bool)
  {
    && i < |events| && AppliedAt(rules, id, events, i) && sets(events[i])
    && forall k | i < k < |events| && AppliedAt(rules, id, events, k) :: !touches(events[k])
  }

  /** Each applied event either sets the property, or ends it, or leaves it alone. */
  ghost predicate Driven(
    holds: State -> bool, sets: SignedAccessEvent -> bool, touches: SignedAccessEvent -> bool)
  {
    forall st, e | ContentRefusal(st, e) == None ::
      holds(Effect(st, e)) <==> sets(e) || (holds(st) && !touches(e))
  }

  lemma LastWordExtends(
    rules: DeviceRules, id: string, events: seq<SignedAccessEvent>, i: nat,
    sets: SignedAccessEvent -> bool, touches: SignedAccessEvent -> bool)
    requires i < |events| - 1
    ensures LastWord(rules, id, events, i, sets, touches) <==>
      && LastWord(rules, id, events[..|events| - 1], i, sets, touches)
      && (AppliedAt(rules, id, events, |events| - 1) ==> !touches(events[|events| - 1]))
  {
    var front := events[..|events| - 1];
    forall k | 0 <= k < |front| ensures AppliedAt(rules, id, front, k) == AppliedAt(rules, id, events, k) {
      assert front[..k] == events[..k];
    }
  }

  ghost predicate HasLastWord(
    rules: DeviceRules, id: string, events: seq<SignedAccessEvent>,
    sets: SignedAccessEvent -> bool, touches: SignedAccessEvent -> bool)
  {
    exists i :: LastWord(rules, id, events, i, sets, touches)
  }

  lemma LastWordStep(
    rules: DeviceRules, id: string, events: seq<SignedAccessEvent>,
    sets: SignedAccessEvent -> bool, touches: SignedAccessEvent -> bool)
    requires events != []
    ensures
      var last := |events| - 1;
      HasLastWord(rules, id, events, sets, touches) <==>
        if AppliedAt(rules, id, events, last)
        then sets(events[last]) || (HasLastWord(rules, id, events[..last], sets, touches) && !touches(events[last]))
        else HasLastWord(rules, id, events[..last], sets, touches)
  {
    var last := |events| - 1;
    forall i | 0 <= i < last { LastWordExtends(rules, id, events, i, sets, touches); }
    if i :| LastWord(rules, id, events[..last], i, sets, touches) {
      LastWordExtends(rules, id, events, i, sets, touches);
    }
    if AppliedAt(rules, id, events, last) && sets(events[last]) {
      assert LastWord(rules, id, events, last, sets, touches);
    }
  }

  lemma {:induction false} LogDecides(
    rules: DeviceRules, id: string, events: seq<SignedAccessEvent>,
    holds: State -> bool, sets: SignedAccessEvent -> bool, touches: SignedAccessEvent -> bool)
    requires !holds(Empty(id)) && Driven(holds, sets, touches)
    ensures holds(After(rules, id, events)) <==> HasLastWord(rules, id, events, sets, touches)
  {
    if events == [] {
    } else {
      var front, e := events[..|events| - 1], events[|events| - 1];
      var st := After(rules, id, front);
      LogDecides(rules, id, front, holds, sets, touches);
      LastWordStep(rules, id, events, sets, touches);
      if Refusal(rules, st, e) == None { DrivenAt(holds, sets, touches, st, e); }
    }
  }

  lemma DrivenAt(
    holds: State -> bool, sets: SignedAccessEvent -> bool, touches: SignedAccessEvent -> bool,
    st: State, e: SignedAccessEvent)
    requires Driven(holds, sets, touches) && ContentRefusal(st, e) == None
    ensures holds(Effect(st, e)) <==> sets(e) || (holds(st) && !touches(e))
  {
  }

  predicate Grants(e: AccessEvent, v: KeyVersion, d: DeviceId) {
    e.RestrictedKeyGranted? && e.deviceId == d && v == KeyVersion(e.keyId, e.keyGeneration)
  }

  predicate EndsGrant(e: AccessEvent, v: KeyVersion, d: DeviceId) {
    || (e.RestrictedKeyRevoked? && e.deviceId == d && v == KeyVersion(e.keyId, e.keyGeneration))
    || (e.DeviceRemoved? && e.deviceId == d)
  }

  function Granting(v: KeyVersion, d: DeviceId): SignedAccessEvent -> bool {
    (e: SignedAccessEvent) => Grants(e.event, v, d)
  }

  function EndingGrant(v: KeyVersion, d: DeviceId): SignedAccessEvent -> bool {
    (e: SignedAccessEvent) => EndsGrant(e.event, v, d)
  }

  lemma GrantStep(st: State, e: SignedAccessEvent, v: KeyVersion, d: DeviceId)
    requires ContentRefusal(st, e) == None
    ensures HasActiveGrant(Effect(st, e).keyGrants, v, d) <==>
      Grants(e.event, v, d) || (HasActiveGrant(st.keyGrants, v, d) && !EndsGrant(e.event, v, d))
  {
    if e.event.DeviceRemoved? {
      RevokeAllGrants(st.keyGrants, e.event.deviceId, e.actorDeviceId, e.createdAt, st.revision + 1, v, d);
    }
  }

  /** A device can open a key version exactly if some applied event granted it and no later applied
      event revoked it or removed the device. */
  lemma GrantsFollowTheLog(
    rules: DeviceRules, id: string, events: seq<SignedAccessEvent>, v: KeyVersion, d: DeviceId)
    ensures HasActiveGrant(After(rules, id, events).keyGrants, v, d) <==>
      HasLastWord(rules, id, events, Granting(v, d), EndingGrant(v, d))
  {
    var holds := (st: State) => HasActiveGrant(st.keyGrants, v, d);
    forall st, e | ContentRefusal(st, e) == None
      ensures holds(Effect(st, e)) <==> Granting(v, d)(e) || (holds(st) && !EndingGrant(v, d)(e))
    {
      GrantStep(st, e, v, d);
    }
    LogDecides(rules, id, events, holds, Granting(v, d), EndingGrant(v, d));
  }

  /** The event makes the device an active member with this role. */
  predicate GivesRole(e: AccessEvent, d: DeviceId, role: Role) {
    match e
    case WorkspaceCreated(owner) => owner.deviceId == d && role == Owner
    case DeviceJoined(_, device, joined) => device.deviceId == d && role == joined
    case DeviceRoleChanged(changed, now) => changed == d && role == now
    case _ => false
  }

  /** The event is about the membership of the device. */
  predicate ChangesRole(e: AccessEvent, d: DeviceId) {
    match e
    case WorkspaceCreated(owner) => owner.deviceId == d
    case DeviceJoined(_, device, _) => device.deviceId == d
    case DeviceRoleChanged(changed, _) => changed == d
    case DeviceRemoved(removed) => removed == d
    case _ => false
  }

  function GivingRole(d: DeviceId, role: Role): SignedAccessEvent -> bool {
    (e: SignedAccessEvent) => GivesRole(e.event, d, role)
  }

  function ChangingRole(d: DeviceId): SignedAccessEvent -> bool {
    (e: SignedAccessEvent) => ChangesRole(e.event, d)
  }

  predicate HasRole(st: State, d: DeviceId, role: Role) {
    IsActive(st, d) && st.memberships[d].role == role
  }

  lemma RoleStep(st: State, e: SignedAccessEvent, d: DeviceId, role: Role)
    requires ContentRefusal(st, e) == None
    ensures HasRole(Effect(st, e), d, role) <==>
      GivesRole(e.event, d, role) || (HasRole(st, d, role) && !ChangesRole(e.event, d))
  {
  }

  /** A device is an active member with a role exactly if some applied event gave it that role and no
      later applied event changed or ended its membership. */
  lemma RolesFollowTheLog(
    rules: DeviceRules, id: string, events: seq<SignedAccessEvent>, d: DeviceId, role: Role)
    ensures HasRole(After(rules, id, events), d, role) <==>
      HasLastWord(rules, id, events, GivingRole(d, role), ChangingRole(d))
  {
    var holds := (st: State) => HasRole(st, d, role);
    forall st, e | ContentRefusal(st, e) == None
      ensures holds(Effect(st, e)) <==> GivingRole(d, role)(e) || (holds(st) && !ChangingRole(d)(e))
    {
      RoleStep(st, e, d, role);
    }
    LogDecides(rules, id, events, holds, GivingRole(d, role), ChangingRole(d));
  }

  // ---------------------------------------------------------------- what never changes

  /** From one state to a later one: members stay, with their identity, their joining and their keys;
      a removal is never undone or altered. */
  ghost predicate Persists(st: State, st': State, d: DeviceId) {
    d in st.memberships && d in st.devices ==>
      && d in st'.memberships && d in st'.devices
      && SameKeys(st.devices[d], st'.devices[d])
      && var m, m' := st.memberships[d], st'.memberships[d];
      && m'.joinedByDeviceId == m.joinedByDeviceId && m'.joinedAtRevision == m.joinedAtRevision
      && m'.joinedAt == m.joinedAt
      && (m.status == RemovedMember ==> SameStanding(m, m'))
  }

  lemma EffectPersists(st: State, e: SignedAccessEvent, d: DeviceId)
    requires ContentRefusal(st, e) == None
    ensures Persists(st, Effect(st, e), d)
  {
  }

  lemma {:induction false} RunPersists(
    rules: DeviceRules, id: string, events: seq<SignedAccessEvent>, i: nat, j: nat, d: DeviceId)
    requires i <= j <= |events|
    ensures Persists(After(rules, id, events[..i]), After(rules, id, events[..j]), d)
    ensures After(rules, id, events[..i]).revision <= After(rules, id, events[..j]).revision
    decreases j
  {
    if i == j {
    } else {
      RunPersists(rules, id, events, i, j - 1, d);
      OneMore(rules, id, events, j - 1);
      var st := After(rules, id, events[..j - 1]);
      if Refusal(rules, st, events[j - 1]) == None {
        EffectPersists(st, events[j - 1], d);
        EffectCommits(st, events[j - 1]);
      }
    }
  }

  lemma OneMore(rules: DeviceRules, id: string, events: seq<SignedAccessEvent>, j: nat)
    requires j < |events|
    ensures var st := After(rules, id, events[..j]);
      After(rules, id, events[..j + 1]) == if AppliedAt(rules, id, events, j) then Effect(st, events[j]) else st
  {
    assert events[..j + 1][..j] == events[..j];
  }

  /** Of the events signed for one revision at most one is ever applied; in particular no event twice. */
  lemma EachRevisionIsUsedOnce(rules: DeviceRules, id: string, events: seq<SignedAccessEvent>, i: nat, j: nat)
    requires i < j < |events| && AppliedAt(rules, id, events, i) && AppliedAt(rules, id, events, j)
    ensures events[i].expectedRevision < events[j].expectedRevision
  {
    OneMore(rules, id, events, i);
    EffectCommits(After(rules, id, events[..i]), events[i]);
    RunPersists(rules, id, events, i + 1, j, "");
  }

  /** A device that is not an active member never acts, except to create the workspace. */
  lemma OnlyMembersAct(rules: DeviceRules, st: State, e: SignedAccessEvent)
    requires Inv(rules, st) && Refusal(rules, st, e) == None
    ensures IsActiveOwner(st, e.actorDeviceId) || (st == Empty(st.workspaceId) && e.event.WorkspaceCreated?)
  {
  }

  /** Once removed, always removed: the device never acts again and never again holds a key. */
  lemma RemovedStaysOut(
    rules: DeviceRules, id: string, events: seq<SignedAccessEvent>, i: nat, j: nat, d: DeviceId, v: KeyVersion)
    requires i <= j <= |events| && IsRemoved(After(rules, id, events[..i]), d)
    ensures IsRemoved(After(rules, id, events[..j]), d)
    ensures j < |events| && events[j].actorDeviceId == d ==> !AppliedAt(rules, id, events, j)
    ensures !HasActiveGrant(After(rules, id, events[..j]).keyGrants, v, d)
  {
    RunsKeepInv(rules, id, events[..i]);
    RunsKeepInv(rules, id, events[..j]);
    var st, st' := After(rules, id, events[..i]), After(rules, id, events[..j]);
    MemberFacts(rules, st, d);
    RunPersists(rules, id, events, i, j, d);
    ActiveHolder(rules, st', v, d);
    if j < |events| && AppliedAt(rules, id, events, j) { OnlyMembersAct(rules, st', events[j]); }
  }

  /** The keys of a device id never change, whatever is signed later. */
  lemma KeysNeverChange(
    rules: DeviceRules, id: string, events: seq<SignedAccessEvent>, i: nat, j: nat, d: DeviceId)
    requires i <= j <= |events| && d in After(rules, id, events[..i]).devices
    ensures d in After(rules, id, events[..j]).devices
    ensures SameKeys(After(rules, id, events[..i]).devices[d], After(rules, id, events[..j]).devices[d])
  {
    RunsKeepInv(rules, id, events[..i]);
    RunPersists(rules, id, events, i, j, d);
  }

  // ---------------------------------------------------------------- the tree of joins

  /** Each device was joined by the next one, strictly earlier, back to the creator. */
  ghost predicate JoinChain(st: State, chain: seq<DeviceId>) {
    && |chain| > 0
    && (forall i | 0 <= i < |chain| :: chain[i] in st.memberships)
    && (forall i | 0 <= i < |chain| - 1 ::
          && st.memberships[chain[i]].joinedByDeviceId == chain[i + 1]
          && WasMember(st, chain[i + 1], st.memberships[chain[i]].joinedAtRevision))
    && st.memberships[chain[|chain| - 1]].joinedAtRevision == 1
  }

  lemma {:induction false} JoinedThroughTheCreator(rules: DeviceRules, st: State, d: DeviceId)
    returns (chain: seq<DeviceId>)
    requires Inv(rules, st) && d in st.memberships
    ensures JoinChain(st, chain) && chain[0] == d
    decreases st.memberships[d].joinedAtRevision
  {
    MemberFacts(rules, st, d);
    var m := st.memberships[d];
    if m.joinedByDeviceId == d {
      chain := [d];
    } else {
      var rest := JoinedThroughTheCreator(rules, st, m.joinedByDeviceId);
      chain := [d] + rest;
    }
  }

  /** There is exactly one creator. */
  lemma OneCreator(rules: DeviceRules, st: State, d: DeviceId, d': DeviceId)
    requires Inv(rules, st) && d in st.memberships && d' in st.memberships
    requires st.memberships[d].joinedByDeviceId == d && st.memberships[d'].joinedByDeviceId == d'
    ensures d == d'
  {
    MemberFacts(rules, st, d);
    MemberFacts(rules, st, d');
    assert JoinedAt(st)(d) == JoinedAt(st)(d');
  }
}
