/**
Materialising a queue's membership: the members of the queue's group that have an active phone
assignment become rows of the shared realtime table and of the local mirror.
*/
module QueueSync {
  import opened Options

  // -------------------------------------------------------------------------
  // Realtime identifiers
  // -------------------------------------------------------------------------

  function Prefix(tenant: string, name: string, useTenantPrefix: bool): string {
    if useTenantPrefix then tenant + "_" + name else name
  }

  /** Within one tenant an identifier determines the name it was made from. */
  lemma PrefixIsInjective(tenant: string, a: string, b: string, useTenantPrefix: bool)
    requires Prefix(tenant, a, useTenantPrefix) == Prefix(tenant, b, useTenantPrefix)
    ensures a == b
  {
    if useTenantPrefix {
      var n := |tenant| + 1;
      assert Prefix(tenant, a, true)[n..] == a;
      assert Prefix(tenant, b, true)[n..] == b;
    }
  }

  /**
  Two tenants can produce the same identifier exactly when one schema name, with its underscore, starts the other.
  */
  lemma TenantsCollide(t1: string, t2: string)
    ensures (exists a, b :: Prefix(t1, a, true) == Prefix(t2, b, true))
       <==> (t1 + "_" <= t2 + "_" || t2 + "_" <= t1 + "_")
  {
    var p1, p2 := t1 + "_", t2 + "_";
    if p1 <= p2 {
      assert Prefix(t1, p2[|p1|..], true) == Prefix(t2, "", true);
    } else if p2 <= p1 {
      assert Prefix(t1, "", true) == Prefix(t2, p1[|p2|..], true);
    } else {
      forall a, b ensures p1 + a != p2 + b {
        var k := FirstDifference(p1, p2);
        assert (p1 + a)[k] == p1[k] && (p2 + b)[k] == p2[k];
      }
    }
  }

  lemma {:induction false} FirstDifference(p: string, q: string) returns (k: nat)
    requires !(p <= q) && !(q <= p)
    ensures k < |p| && k < |q| && p[k] != q[k]
  {
    k := 0;
    while p[k] == q[k]
      invariant k < |p| && k < |q| && p[..k] == q[..k]
      decreases |p| - k
    {
      assert p[..k + 1] == p[..k] + [p[k]] && q[..k + 1] == q[..k] + [q[k]];
      k := k + 1;
      assert p == p[..k] || q == q[..k] || (k < |p| && k < |q|);
    }
  }

  /** So identifiers are not unique across tenants: queue b_c of tenant a is queue c of tenant a_b. */
  lemma CollidingTenants()
    ensures Prefix("a", "b_c", true) == Prefix("a_b", "c", true)
  {
  }

  // -------------------------------------------------------------------------
  // Tables
  // -------------------------------------------------------------------------

  type UserId = nat
  type AssignmentId = nat
  type QueueId = nat

  datatype Assignment = Assignment(
    id: AssignmentId, user: UserId, extension: string, displayName: string, email: string, isActive: bool)

  datatype Queue = Queue(id: QueueId, slug: string, wrapupTime: int, group: set<UserId>)

  datatype RealtimeRow = RealtimeRow(
    memberName: string, stateInterface: string, penalty: int, paused: int, wrapupTime: int,
    reasonPaused: Option<string>)

  datatype MirrorRow = MirrorRow(penalty: int, paused: bool, isActive: bool)

  type RealtimeKey = (string, string)
  type MirrorKey = (QueueId, AssignmentId)

  datatype Tables = Tables(realtime: map<RealtimeKey, RealtimeRow>, mirror: map<MirrorKey, MirrorRow>)

  /** The tenant whose tables are written, and whether its server shares its database. */
  datatype Tenant = Tenant(schema: string, usePrefix: bool) {

    function QueueName(queue: Queue): string {
      Prefix(schema, queue.slug, usePrefix)
    }

    function Interface(a: Assignment): string {
      "PJSIP/" + Prefix(schema, a.extension, usePrefix)
    }
  }

  // -------------------------------------------------------------------------
  // What a sync leaves behind
  // -------------------------------------------------------------------------

  predicate Belongs(queue: Queue, a: Assignment) {
    a.user in queue.group && a.isActive
  }

  /** Group members' active assignments, in table order. */
  function Active(queue: Queue, table: seq<Assignment>): (active: seq<Assignment>)
    ensures forall a :: a in active <==> a in table && Belongs(queue, a)
  {
    if table == [] then []
    else if Belongs(queue, table[0]) then [table[0]] + Active(queue, table[1..])
    else Active(queue, table[1..])
  }

  /** The assignment that owns each interface: the last one, when an extension is given twice. */
  function Owners(t: Tenant, active: seq<Assignment>): (owners: map<string, Assignment>)
    ensures forall i :: i in owners <==> exists a :: a in active && t.Interface(a) == i
    ensures forall i <- owners :: owners[i] in active && t.Interface(owners[i]) == i
  {
    if active == [] then map[]
    else
      var last := |active| - 1;
      assert active == active[..last] + [active[last]];
      Owners(t, active[..last])[t.Interface(active[last]) := active[last]]
  }

  /** The assignment at `k` is the last one for its interface. */
  ghost predicate IsLastFor(t: Tenant, active: seq<Assignment>, k: nat, interface: string) {
    && k < |active| && t.Interface(active[k]) == interface
    && forall l :: k < l < |active| ==> t.Interface(active[l]) != interface
  }

  lemma LastIsAdded(t: Tenant, active: seq<Assignment>)
    requires active != []
    ensures var last := |active| - 1;
            Owners(t, active) == Owners(t, active[..last])[t.Interface(active[last]) := active[last]]
  {
  }

  /** Of several assignments of one extension the last in table order owns the interface. */
  lemma {:induction false} LastAssignmentOwns(t: Tenant, active: seq<Assignment>, k: nat, interface: string)
    requires IsLastFor(t, active, k, interface)
    ensures interface in Owners(t, active) && Owners(t, active)[interface] == active[k]
  {
    LastIsAdded(t, active);
    var last := |active| - 1;
    if k < last {
      var fewer := active[..last];
      assert fewer[k] == active[k];
      forall l | k < l < |fewer| ensures t.Interface(fewer[l]) != interface {
        assert fewer[l] == active[l];
      }
      LastAssignmentOwns(t, fewer, k, interface);
    }
  }

  /** The row at `k` is the last one of the interface that a member of the queue's group has active. */
  ghost predicate OwnsInTable(t: Tenant, queue: Queue, table: seq<Assignment>, k: nat, interface: string) {
    && k < |table| && table[k].user in queue.group && table[k].isActive && t.Interface(table[k]) == interface
    && forall l :: k < l < |table| && table[l].user in queue.group && table[l].isActive ==>
         t.Interface(table[l]) != interface
  }

  /** Leaving out the others keeps the order. */
  lemma {:induction false} OwnerIsLastActive(t: Tenant, queue: Queue, table: seq<Assignment>, k: nat,
                                             interface: string) returns (n: nat)
    requires OwnsInTable(t, queue, table, k, interface)
    ensures IsLastFor(t, Active(queue, table), n, interface) && Active(queue, table)[n] == table[k]
  {
    var rest := table[1..];
    if k == 0 {
      n := 0;
      forall a | a in Active(queue, rest) ensures t.Interface(a) != interface {
        var l :| 0 <= l < |rest| && rest[l] == a;
        assert table[l + 1] == a;
      }
    } else {
      assert rest[k - 1] == table[k];
      forall l | k - 1 < l < |rest| && rest[l].user in queue.group && rest[l].isActive
        ensures t.Interface(rest[l]) != interface
      {
        assert rest[l] == table[l + 1];
      }
      n := OwnerIsLastActive(t, queue, rest, k - 1, interface);
      if Belongs(queue, table[0]) {
        n := n + 1;
      }
    }
  }

  /** The defaults a sync writes; what is not among them survives from an existing row. */
  function UpsertRow(before: Option<RealtimeRow>, queue: Queue, interface: string, a: Assignment): RealtimeRow {
    RealtimeRow(
      if a.displayName != "" then a.displayName else a.email, interface, 0, 0, queue.wrapupTime,
      if before.Some? then before.value.reasonPaused else None)
  }

  function Find<K, V>(m: map<K, V>, k: K): Option<V> {
    if k in m then Some(m[k]) else None
  }

  function UpsertMirror(before: Option<MirrorRow>): MirrorRow {
    if before.Some? then before.value.(isActive := true) else MirrorRow(0, false, true)
  }

  /** A row of the realtime table after a sync of the queue called `name`, for every key. */
  function RealtimeAfter(before: map<RealtimeKey, RealtimeRow>, queue: Queue, name: string,
                         owners: map<string, Assignment>, k: RealtimeKey): Option<RealtimeRow>
  {
    if k.0 != name then Find(before, k)
    else if k.1 in owners then Some(UpsertRow(Find(before, k), queue, k.1, owners[k.1]))
    else None
  }

  ghost predicate SyncedRealtime(queue: Queue, name: string, owners: map<string, Assignment>,
                                 before: map<RealtimeKey, RealtimeRow>, after: map<RealtimeKey, RealtimeRow>)
  {
    forall k: RealtimeKey :: Find(after, k) == RealtimeAfter(before, queue, name, owners, k)
  }

  function MirrorAfter(before: map<MirrorKey, MirrorRow>, queue: QueueId, members: set<AssignmentId>,
                       k: MirrorKey): Option<MirrorRow>
  {
    if k.0 != queue then Find(before, k)
    else if k.1 in members then Some(UpsertMirror(Find(before, k)))
    else None
  }

  ghost predicate SyncedMirror(queue: QueueId, members: set<AssignmentId>,
                               before: map<MirrorKey, MirrorRow>, after: map<MirrorKey, MirrorRow>)
  {
    forall k: MirrorKey :: Find(after, k) == MirrorAfter(before, queue, members, k)
  }

  function Ids(active: seq<Assignment>): set<AssignmentId> {
    set a | a in active :: a.id
  }

  ghost predicate Synced(t: Tenant, queue: Queue, table: seq<Assignment>, before: Tables, after: Tables) {
    var active := Active(queue, table);
    && SyncedRealtime(queue, t.QueueName(queue), Owners(t, active), before.realtime, after.realtime)
    && SyncedMirror(queue.id, Ids(active), before.mirror, after.mirror)
  }

  lemma FindDetermines<K, V>(m: map<K, V>, m': map<K, V>)
    requires forall k :: Find(m, k) == Find(m', k)
    ensures m == m'
  {
    forall k ensures k in m <==> k in m' {
      assert Find(m, k) == Find(m', k);
    }
    forall k | k in m ensures m[k] == m'[k] {
      assert Find(m, k) == Find(m', k);
    }
  }

  /** The queue's realtime rows are the interfaces of its active members; its mirror has one active row each. */
  lemma SyncIsExact(t: Tenant, queue: Queue, table: seq<Assignment>, before: Tables, after: Tables)
    requires Synced(t, queue, table, before, after)
    ensures forall i: string :: (t.QueueName(queue), i) in after.realtime
              <==> exists a :: a in table && a.user in queue.group && a.isActive && t.Interface(a) == i
    ensures forall id: AssignmentId :: (queue.id, id) in after.mirror
              <==> exists a :: a in table && a.user in queue.group && a.isActive && a.id == id
    ensures forall id: AssignmentId :: (queue.id, id) in after.mirror ==> after.mirror[(queue.id, id)].isActive
  {
    var name, active := t.QueueName(queue), Active(queue, table);
    var owners := Owners(t, active);
    forall i: string ensures (name, i) in after.realtime <==> i in owners {
      assert Find(after.realtime, (name, i)) == RealtimeAfter(before.realtime, queue, name, owners, (name, i));
    }
    forall id: AssignmentId
      ensures (queue.id, id) in after.mirror <==> id in Ids(active)
      ensures (queue.id, id) in after.mirror ==> after.mirror[(queue.id, id)].isActive
    {
      assert Find(after.mirror, (queue.id, id)) == MirrorAfter(before.mirror, queue.id, Ids(active), (queue.id, id));
    }
  }

  /** A realtime row is its owner's: the name or else the address, unpaused, with the queue's wrap-up time. */
  lemma RealtimeRowIsItsOwners(t: Tenant, queue: Queue, table: seq<Assignment>, before: Tables, after: Tables,
                               k: nat, interface: string)
    requires Synced(t, queue, table, before, after) && OwnsInTable(t, queue, table, k, interface)
    ensures var key, owner := (if t.usePrefix then t.schema + "_" + queue.slug else queue.slug, interface), table[k];
            && key in after.realtime
            && interface == "PJSIP/" + (if t.usePrefix then t.schema + "_" + owner.extension else owner.extension)
            && var row := after.realtime[key];
               && row.memberName == (if owner.displayName == "" then owner.email else owner.displayName)
               && row.stateInterface == interface && row.penalty == 0 && row.paused == 0
               && row.wrapupTime == queue.wrapupTime
               && row.reasonPaused == if key in before.realtime then before.realtime[key].reasonPaused else None
  {
    var name, active := t.QueueName(queue), Active(queue, table);
    var n := OwnerIsLastActive(t, queue, table, k, interface);
    LastAssignmentOwns(t, active, n, interface);
    assert Find(after.realtime, (name, interface))
        == RealtimeAfter(before.realtime, queue, name, Owners(t, active), (name, interface));
  }

  /** A mirror row that was there keeps its penalty and pause; a new one has none. */
  lemma MirrorRowKeepsItsPause(t: Tenant, queue: Queue, table: seq<Assignment>, before: Tables, after: Tables,
                               id: AssignmentId)
    requires Synced(t, queue, table, before, after) && (queue.id, id) in after.mirror
    ensures var key := (queue.id, id);
            && after.mirror[key].isActive
            && after.mirror[key].penalty == (if key in before.mirror then before.mirror[key].penalty else 0)
            && after.mirror[key].paused == (key in before.mirror && before.mirror[key].paused)
  {
    var active := Active(queue, table);
    assert Find(after.mirror, (queue.id, id)) == MirrorAfter(before.mirror, queue.id, Ids(active), (queue.id, id));
  }

  /** Rows of other queues are untouched. */
  lemma SyncKeepsOtherQueues(t: Tenant, queue: Queue, table: seq<Assignment>, before: Tables, after: Tables,
                             k: RealtimeKey, m: MirrorKey)
    requires Synced(t, queue, table, before, after)
    requires k.0 != t.QueueName(queue) && m.0 != queue.id
    ensures Find(after.realtime, k) == Find(before.realtime, k)
    ensures Find(after.mirror, m) == Find(before.mirror, m)
  {
    var active := Active(queue, table);
    assert Find(after.realtime, k) == RealtimeAfter(before.realtime, queue, t.QueueName(queue), Owners(t, active), k);
    assert Find(after.mirror, m) == MirrorAfter(before.mirror, queue.id, Ids(active), m);
  }

  /** A second run changes nothing. */
  lemma SyncIsIdempotent(t: Tenant, queue: Queue, table: seq<Assignment>, before: Tables, once: Tables, twice: Tables)
    requires Synced(t, queue, table, before, once) && Synced(t, queue, table, once, twice)
    ensures twice == once
  {
    var name, active := t.QueueName(queue), Active(queue, table);
    RealtimeIdempotent(queue, name, Owners(t, active), before.realtime, once.realtime, twice.realtime);
    MirrorIdempotent(queue.id, Ids(active), before.mirror, once.mirror, twice.mirror);
  }

  lemma RealtimeIdempotent(queue: Queue, name: string, owners: map<string, Assignment>,
                           before: map<RealtimeKey, RealtimeRow>, once: map<RealtimeKey, RealtimeRow>,
                           twice: map<RealtimeKey, RealtimeRow>)
    requires SyncedRealtime(queue, name, owners, before, once) && SyncedRealtime(queue, name, owners, once, twice)
    ensures twice == once
  {
    forall k: RealtimeKey ensures Find(twice, k) == Find(once, k) {
      assert Find(once, k) == RealtimeAfter(before, queue, name, owners, k);
    }
    FindDetermines(twice, once);
  }

  lemma MirrorIdempotent(queue: QueueId, members: set<AssignmentId>,
                         before: map<MirrorKey, MirrorRow>, once: map<MirrorKey, MirrorRow>,
                         twice: map<MirrorKey, MirrorRow>)
    requires SyncedMirror(queue, members, before, once) && SyncedMirror(queue, members, once, twice)
    ensures twice == once
  {
    forall k: MirrorKey ensures Find(twice, k) == Find(once, k) {
      assert Find(once, k) == MirrorAfter(before, queue, members, k);
    }
    FindDetermines(twice, once);
  }

  /** Two queues with different names can be synced in either order. */
  lemma SyncsCommute(t: Tenant, q1: Queue, q2: Queue, table: seq<Assignment>,
                     before: Tables, first: Tables, both: Tables, second: Tables, both': Tables)
    requires q1.id != q2.id && q1.slug != q2.slug
    requires Synced(t, q1, table, before, first) && Synced(t, q2, table, first, both)
    requires Synced(t, q2, table, before, second) && Synced(t, q1, table, second, both')
    ensures both == both'
  {
    var n1, n2 := t.QueueName(q1), t.QueueName(q2);
    if n1 == n2 {
      PrefixIsInjective(t.schema, q1.slug, q2.slug, t.usePrefix);
    }
    var a1, a2 := Active(q1, table), Active(q2, table);
    RealtimeCommutes(q1, n1, Owners(t, a1), q2, n2, Owners(t, a2),
                     before.realtime, first.realtime, both.realtime, second.realtime, both'.realtime);
    MirrorCommutes(q1.id, Ids(a1), q2.id, Ids(a2), before.mirror, first.mirror, both.mirror, second.mirror,
                   both'.mirror);
  }

  lemma RealtimeCommutes(q1: Queue, n1: string, o1: map<string, Assignment>,
                         q2: Queue, n2: string, o2: map<string, Assignment>,
                         before: map<RealtimeKey, RealtimeRow>,
                         first: map<RealtimeKey, RealtimeRow>, both: map<RealtimeKey, RealtimeRow>,
                         second: map<RealtimeKey, RealtimeRow>, both': map<RealtimeKey, RealtimeRow>)
    requires n1 != n2
    requires SyncedRealtime(q1, n1, o1, before, first) && SyncedRealtime(q2, n2, o2, first, both)
    requires SyncedRealtime(q2, n2, o2, before, second) && SyncedRealtime(q1, n1, o1, second, both')
    ensures both == both'
  {
    forall k: RealtimeKey ensures Find(both, k) == Find(both', k) {
      assert Find(first, k) == RealtimeAfter(before, q1, n1, o1, k);
      assert Find(second, k) == RealtimeAfter(before, q2, n2, o2, k);
    }
    FindDetermines(both, both');
  }

  lemma MirrorCommutes(q1: QueueId, m1: set<AssignmentId>, q2: QueueId, m2: set<AssignmentId>,
                       before: map<MirrorKey, MirrorRow>,
                       first: map<MirrorKey, MirrorRow>, both: map<MirrorKey, MirrorRow>,
                       second: map<MirrorKey, MirrorRow>, both': map<MirrorKey, MirrorRow>)
    requires q1 != q2
    requires SyncedMirror(q1, m1, before, first) && SyncedMirror(q2, m2, first, both)
    requires SyncedMirror(q2, m2, before, second) && SyncedMirror(q1, m1, second, both')
    ensures both == both'
  {
    forall k: MirrorKey ensures Find(both, k) == Find(both', k) {
      assert Find(first, k) == MirrorAfter(before, q1, m1, k);
      assert Find(second, k) == MirrorAfter(before, q2, m2, k);
    }
    FindDetermines(both, both');
  }

  // -------------------------------------------------------------------------
  // The sync itself
  // -------------------------------------------------------------------------

  class Pbx {
    const tenant: Tenant
    var realtime: map<RealtimeKey, RealtimeRow>
    var mirror: map<MirrorKey, MirrorRow>

    constructor (tenant: Tenant, tables: Tables)
      ensures this.tenant == tenant && realtime == tables.realtime && mirror == tables.mirror
    {
      this.tenant := tenant;
      realtime, mirror := tables.realtime, tables.mirror;
    }

    method SyncQueueMembers(queue: Queue, table: seq<Assignment>)
      modifies this
      ensures Synced(tenant, queue, table, Tables(old(realtime), old(mirror)), Tables(realtime, mirror))
    {
      var active := Active(queue, table);
      SyncRealtime(queue, active);
      SyncMirror(queue, active);
    }

    method OwnersOf(active: seq<Assignment>) returns (owners: map<string, Assignment>)
      ensures owners == Owners(tenant, active)
    {
      owners := map[];
      for k := 0 to |active|
        invariant owners == Owners(tenant, active[..k])
      {
        owners := owners[tenant.Interface(active[k]) := active[k]];
        assert active[..k + 1][..k] == active[..k];
      }
      assert active[..|active|] == active;
    }

    method SyncRealtime(queue: Queue, active: seq<Assignment>)
      modifies this`realtime
      ensures SyncedRealtime(queue, tenant.QueueName(queue), Owners(tenant, active), old(realtime), realtime)
    {
      var name := tenant.QueueName(queue);
      var owners := OwnersOf(active);
      var todo := owners.Keys;
      while todo != {}
        invariant todo <= owners.Keys
        invariant forall k: RealtimeKey :: Find(realtime, k) ==
                    if k.0 == name && k.1 in owners && k.1 !in todo
                    then Some(UpsertRow(Find(old(realtime), k), queue, k.1, owners[k.1]))
                    else Find(old(realtime), k)
      {
        var interface :| interface in todo;
        UpsertRealtime((name, interface), queue, owners[interface]);
        todo := todo - {interface};
      }
      DropRealtime(name, owners.Keys);
    }

    method UpsertRealtime(key: RealtimeKey, queue: Queue, a: Assignment)
      modifies this`realtime
      ensures forall k: RealtimeKey :: Find(realtime, k) ==
                if k == key then Some(UpsertRow(Find(old(realtime), k), queue, k.1, a)) else Find(old(realtime), k)
    {
      realtime := realtime[key := UpsertRow(Find(realtime, key), queue, key.1, a)];
    }

    /** Drops the queue's rows whose interface is no longer wanted. */
    method DropRealtime(name: string, wanted: set<string>)
      modifies this`realtime
      ensures forall k: RealtimeKey :: Find(realtime, k) ==
                if k.0 == name && k.1 !in wanted then None else Find(old(realtime), k)
    {
      realtime := map k | k in realtime && !(k.0 == name && k.1 !in wanted) :: realtime[k];
    }

    method SyncMirror(queue: Queue, active: seq<Assignment>)
      modifies this`mirror
      ensures SyncedMirror(queue.id, Ids(active), old(mirror), mirror)
    {
      for n := 0 to |active|
        invariant forall k: MirrorKey :: Find(mirror, k) ==
                    if k.0 == queue.id && k.1 in Ids(active[..n])
                    then Some(UpsertMirror(Find(old(mirror), k)))
                    else Find(old(mirror), k)
      {
        assert active[..n + 1] == active[..n] + [active[n]];
        assert Ids(active[..n + 1]) == Ids(active[..n]) + {active[n].id};
        ActivateMirror((queue.id, active[n].id));
      }
      assert active[..|active|] == active;
      var wanted := Ids(active);
      mirror := map k | k in mirror && !(k.0 == queue.id && k.1 !in wanted) :: mirror[k];
    }

    method ActivateMirror(key: MirrorKey)
      modifies this`mirror
      ensures forall k: MirrorKey :: Find(mirror, k) ==
                if k == key then Some(UpsertMirror(Find(old(mirror), k))) else Find(old(mirror), k)
    {
      if key in mirror {
        if !mirror[key].isActive {
          mirror := mirror[key := mirror[key].(isActive := true)];
        }
      } else {
        mirror := mirror[key := MirrorRow(0, false, true)];
      }
    }
  }
}
