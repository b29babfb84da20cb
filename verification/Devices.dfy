/** Synchronising the devices of a user with the homeserver (crates/matrix-synapse/src/legacy.rs), and
    the mock homeserver as the simple specification (crates/matrix/src/mock.rs). */
module Devices {

  /** The devices of a user: whether each is dehydrated. */
  type Devices = map<string, bool>

  ghost function Dehydrated(m: Devices): set<string> { set id | id in m && m[id] }

  /** What a request comes to: done, done but the answer was lost, or not done. */
  datatype Reply = Done | Lost | Refused

  // ---------------------------------------------------------------- specification

  /** `after` has the requested devices and the dehydrated ones; devices that were there are as they were. */
  ghost predicate Synced(before: Devices, devices: set<string>, after: Devices) {
    after.Keys == devices + Dehydrated(before) && SameFlags(before, after)
  }

  ghost predicate SameFlags(before: Devices, after: Devices) {
    forall id :: id in after ==> after[id] == (id in before && before[id])
  }

  /** Where an interrupted synchronisation may leave the devices: nothing is lost that is still wanted,
      nothing is there that was neither there before nor wanted. */
  ghost predicate Between(before: Devices, devices: set<string>, after: Devices) {
    && before.Keys * devices + Dehydrated(before) <= after.Keys <= before.Keys + devices
    && SameFlags(before, after)
  }

  lemma BetweenKeepsDehydrated(before: Devices, devices: set<string>, after: Devices)
    requires Between(before, devices, after)
    ensures Dehydrated(after) == Dehydrated(before)
  {
  }

  lemma BetweenTransitive(a: Devices, devices: set<string>, b: Devices, c: Devices)
    requires Between(a, devices, b) && Between(b, devices, c)
    ensures Between(a, devices, c)
  {
    BetweenKeepsDehydrated(a, devices, b);
  }

  lemma SyncedIsBetween(a: Devices, devices: set<string>, b: Devices)
    requires Synced(a, devices, b)
    ensures Between(a, devices, b)
  {
  }

  /** There is one outcome. */
  lemma SyncedIsUnique(before: Devices, devices: set<string>, x: Devices, y: Devices)
    requires Synced(before, devices, x) && Synced(before, devices, y)
    ensures x == y
  {
    assert x.Keys == y.Keys;
    forall id | id in x ensures x[id] == y[id] {
      assert id in y;
    }
  }

  /** A run from wherever another one stopped ends where that one would have. */
  lemma ResumeReachesSameEnd(before: Devices, devices: set<string>, stopped: Devices, after: Devices)
    requires Between(before, devices, stopped)
    ensures Synced(stopped, devices, after) <==> Synced(before, devices, after)
  {
    BetweenKeepsDehydrated(before, devices, stopped);
  }

  /** Interrupted runs, one after the other, leave the devices between the start and the end. */
  lemma {:induction false} RetriesStayBetween(states: seq<Devices>, devices: set<string>)
    requires states != [] && forall i :: 0 < i < |states| ==> Between(states[i - 1], devices, states[i])
    ensures Between(states[0], devices, states[|states| - 1])
  {
    if |states| > 1 {
      hide Between;
      var front := states[..|states| - 1];
      forall i | 0 < i < |front| ensures Between(front[i - 1], devices, front[i]) {
        assert front[i - 1] == states[i - 1] && front[i] == states[i];
      }
      RetriesStayBetween(front, devices);
      BetweenTransitive(states[0], devices, front[|front| - 1], states[|states| - 1]);
    }
  }

  /** Any number of interrupted runs, then one that succeeds: the end is the same as without them. */
  lemma RetriesReachSameEnd(states: seq<Devices>, devices: set<string>, after: Devices)
    requires states != [] && forall i :: 0 < i < |states| ==> Between(states[i - 1], devices, states[i])
    ensures Synced(states[|states| - 1], devices, after) <==> Synced(states[0], devices, after)
  {
    hide Between, Synced;
    RetriesStayBetween(states, devices);
    ResumeReachesSameEnd(states[0], devices, states[|states| - 1], after);
  }

  /** Synchronising twice is synchronising once. */
  lemma SyncIsIdempotent(before: Devices, devices: set<string>, after: Devices, again: Devices)
    requires Synced(before, devices, after) && Synced(after, devices, again)
    ensures again == after
  {
    SyncedIsBetween(before, devices, after);
    ResumeReachesSameEnd(before, devices, after, again);
    SyncedIsUnique(before, devices, after, again);
  }

  /** The outcome is the plain assignment of the mock exactly when no unrequested device is dehydrated. */
  lemma RefinesMockIff(before: Devices, devices: set<string>, after: Devices)
    requires Synced(before, devices, after)
    ensures after.Keys == devices <==> Dehydrated(before) <= devices
  {
  }

  // ---------------------------------------------------------------- the homeserver client

  class Synapse {
    var users: map<string, Devices>
    var requests: nat
    const net: nat -> Reply

    constructor (u: map<string, Devices>, n: nat -> Reply)
      ensures users == u && net == n
    {
      users, requests, net := u, 0, n;
    }

    /** Only the devices of one user may have changed. */
    twostate predicate OnlyUser(localpart: string)
      reads this
    {
      users.Keys == old(users).Keys && forall u :: u in users && u != localpart ==> users[u] == old(users)[u]
    }

    method List(localpart: string) returns (ok: bool, devices: Devices)
      modifies this`requests
      ensures ok ==> localpart in users && devices == users[localpart]
      ensures requests == old(requests) + 1
      ensures ok <==> localpart in users && net(old(requests)) == Done
    {
      var reply := net(requests);
      requests := requests + 1;
      if reply == Done && localpart in users { return true, users[localpart]; }
      return false, map[];
    }

    method DeleteDevices(localpart: string, ids: set<string>) returns (ok: bool)
      modifies this
      ensures requests == old(requests) + 1 && OnlyUser(localpart)
      ensures ok <==> localpart in users && net(old(requests)) == Done
      ensures localpart in users ==>
        users[localpart] == if net(old(requests)) == Refused then old(users)[localpart] else old(users)[localpart] - ids
    {
      var reply := net(requests);
      requests := requests + 1;
      if localpart !in users { return false; }
      if reply != Refused {
        users := users[localpart := users[localpart] - ids];
      }
      return reply == Done;
    }

    /** `upsert_device`: creating a device that exists leaves it as it is. */
    method UpsertDevice(localpart: string, id: string) returns (ok: bool)
      modifies this
      ensures requests == old(requests) + 1 && OnlyUser(localpart)
      ensures ok <==> localpart in users && net(old(requests)) == Done
      ensures localpart in users ==>
        users[localpart] == if net(old(requests)) == Refused || id in old(users)[localpart] then old(users)[localpart]
                            else old(users)[localpart][id := false]
    {
      var reply := net(requests);
      requests := requests + 1;
      if localpart !in users { return false; }
      if reply != Refused && id !in users[localpart] {
        users := users[localpart := users[localpart][id := false]];
      }
      return reply == Done;
    }

    /** `sync_devices`: delete what is not wanted, then create what is missing, one by one. */
    method SyncDevices(localpart: string, devices: set<string>) returns (ok: bool)
      modifies this
      ensures OnlyUser(localpart)
      ensures ok ==> localpart in users && Synced(old(users)[localpart], devices, users[localpart])
      ensures localpart in users ==> Between(old(users)[localpart], devices, users[localpart])
      ensures requests >= old(requests)
      ensures localpart in users && (forall i :: old(requests) <= i < requests ==> net(i) == Done) ==> ok
    {
      hide Between, Synced, Progress;
      var listed, body := List(localpart);
      if localpart in users {
        ghost var now := users[localpart];
        AfterDelete(now, devices, set id | id in now && !now[id]);
      }
      if !listed { return false; }
      ghost var before := users[localpart];
      var existing := set id | id in body && !body[id];
      var deleted := DeleteDevices(localpart, existing - devices);
      if !deleted { return false; }
      ok := CreateMissing(localpart, before, devices, devices - existing);
    }

    /** The loop that creates devices. */
    method CreateMissing(localpart: string, ghost before: Devices, ghost devices: set<string>, missing: set<string>)
      returns (ok: bool)
      requires localpart in users && missing <= devices && Progress(before, devices, missing, users[localpart])
      modifies this
      ensures OnlyUser(localpart) && requests >= old(requests)
      ensures ok ==> Synced(before, devices, users[localpart])
      ensures Between(before, devices, users[localpart])
      ensures (forall i :: old(requests) <= i < requests ==> net(i) == Done) ==> ok
    {
      hide Between, Synced, Progress;
      var rest := missing;
      while rest != {}
        invariant localpart in users && OnlyUser(localpart) && rest <= devices
        invariant Progress(before, devices, rest, users[localpart])
        invariant requests >= old(requests)
        decreases rest
      {
        var id :| id in rest;
        CreateStep(before, devices, rest, users[localpart], id);
        var created := UpsertDevice(localpart, id);
        if !created {
          assert net(requests - 1) != Done;
          return false;
        }
        rest := rest - {id};
      }
      ProgressDone(before, devices, users[localpart]);
      return true;
    }
  }

  /** The unwanted devices are gone and only those in `rest` may still be missing. */
  ghost predicate Progress(before: Devices, devices: set<string>, rest: set<string>, now: Devices) {
    && devices - rest + Dehydrated(before) <= now.Keys <= devices + Dehydrated(before)
    && before.Keys * devices <= now.Keys
    && SameFlags(before, now)
  }

  lemma AfterDelete(before: Devices, devices: set<string>, existing: set<string>)
    requires existing == set id | id in before && !before[id]
    ensures Between(before, devices, before) && Between(before, devices, before - (existing - devices))
    ensures Progress(before, devices, devices - existing, before - (existing - devices))
  {
  }

  lemma CreateStep(before: Devices, devices: set<string>, rest: set<string>, now: Devices, id: string)
    requires id in rest && rest <= devices && Progress(before, devices, rest, now)
    ensures Between(before, devices, now)
    ensures id in now ==> Progress(before, devices, rest - {id}, now)
    ensures id !in now ==>
      Progress(before, devices, rest - {id}, now[id := false]) && Between(before, devices, now[id := false])
  {
  }

  lemma ProgressDone(before: Devices, devices: set<string>, now: Devices)
    requires Progress(before, devices, {}, now)
    ensures Synced(before, devices, now) && Between(before, devices, now)
  {
  }

  // ---------------------------------------------------------------- the mock

  class Mock {
    var users: map<string, set<string>>

    constructor (u: map<string, set<string>>)
      ensures users == u
    {
      users := u;
    }

    method UpsertDevice(localpart: string, id: string) returns (ok: bool)
      modifies this
      ensures ok <==> localpart in old(users)
      ensures users == if ok then old(users)[localpart := old(users)[localpart] + {id}] else old(users)
    {
      if localpart !in users { return false; }
      users := users[localpart := users[localpart] + {id}];
      return true;
    }

    method DeleteDevice(localpart: string, id: string) returns (ok: bool)
      modifies this
      ensures ok <==> localpart in old(users)
      ensures users == if ok then old(users)[localpart := old(users)[localpart] - {id}] else old(users)
    {
      if localpart !in users { return false; }
      users := users[localpart := users[localpart] - {id}];
      return true;
    }

    method SyncDevices(localpart: string, devices: set<string>) returns (ok: bool)
      modifies this
      ensures ok <==> localpart in old(users)
      ensures users == if ok then old(users)[localpart := devices] else old(users)
    {
      if localpart !in users { return false; }
      users := users[localpart := devices];
      return true;
    }
  }

  /** The mock knows the same users and, of each, the same device ids. */
  ghost predicate Mirrors(users: map<string, Devices>, mock: map<string, set<string>>) {
    users.Keys == mock.Keys && forall u :: u in users ==> users[u].Keys == mock[u]
  }

  /** One synchronisation of both keeps the mock a mirror exactly when no unrequested device of the
      user is dehydrated. */
  method SyncBoth(synapse: Synapse, mock: Mock, localpart: string, devices: set<string>) returns (ok: bool)
    requires Mirrors(synapse.users, mock.users)
    modifies synapse, mock
    ensures ok ==> localpart in old(synapse.users)
    ensures ok ==> (Mirrors(synapse.users, mock.users) <==> Dehydrated(old(synapse.users)[localpart]) <= devices)
  {
    ghost var before := synapse.users;
    ok := synapse.SyncDevices(localpart, devices);
    if ok {
      RefinesMockIff(before[localpart], devices, synapse.users[localpart]);
      var done := mock.SyncDevices(localpart, devices);
    }
  }

  /** A user with one dehydrated device, and no device requested: afterwards the homeserver still has
      the device and the mock has none. */
  method MirrorBreaks() returns (synapse: Synapse, mock: Mock, ok: bool)
    ensures ok && !Mirrors(synapse.users, mock.users)
    ensures synapse.users == map["alice" := map["d" := true]] && mock.users == map["alice" := {}]
  {
    synapse := new Synapse(map["alice" := map["d" := true]], _ => Done);
    mock := new Mock(map["alice" := {"d"}]);
    ghost var before := synapse.users["alice"];
    assert Dehydrated(before) == {"d"};
    ok := synapse.SyncDevices("alice", {});
    SyncedIsUnique(before, {}, synapse.users["alice"], before);
    var done := mock.SyncDevices("alice", {});
    assert "d" in synapse.users["alice"].Keys;
  }
}
