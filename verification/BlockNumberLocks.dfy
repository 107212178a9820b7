/**
 * Locking a block number in every partition at once (EphemeralLockInZooKeeper.cpp). Other clients act between any two
 * requests of this one; what they do is given as a schedule.
 */
module BlockNumberLocks {
  import opened Options
  import opened SequentialNodes

  // ---- the block numbers node ----

  datatype Allocation = Allocation(partition: string, number: nat, path: string)

  /**
   * `next` numbers the next node of each partition, `version` grows when a partition is added, `live` holds the paths of
   * the nodes that exist, and `log` remembers every number that was ever given out.
   */
  datatype Blocks = Blocks(root: string, version: nat, next: map<string, nat>, live: set<string>, log: seq<Allocation>)

  predicate Slashless(name: string) {
    '/' !in name
  }

  function NodePrefix(root: string, partition: string, prefix: string): string {
    root + "/" + partition + "/" + prefix
  }

  function Path(root: string, partition: string, prefix: string, number: nat): string {
    SequentialName(NodePrefix(root, partition, prefix), number)
  }

  lemma PathExample()
    ensures Path("/block_numbers", "all", "block-", 42) == "/block_numbers/all/block-0000000042"
  {
    NameExample(NodePrefix("/block_numbers", "all", "block-"));
    assert "/block_numbers" + "/" + "all" + "/" + "block-" == "/block_numbers/all/block-";
    assert "/block_numbers/all/block-" + "0000000042" == "/block_numbers/all/block-0000000042";
  }

  ghost predicate ValidAllocation(s: Blocks, a: Allocation) {
    && a.partition in s.next && a.number < s.next[a.partition]
    && exists prefix :: Slashless(prefix) && a.path == Path(s.root, a.partition, prefix, a.number)
  }

  ghost predicate Increasing(log: seq<Allocation>) {
    forall i, j :: 0 <= i < j < |log| && log[i].partition == log[j].partition ==> log[i].number < log[j].number
  }

  ghost predicate Valid(s: Blocks) {
    && (forall p :: p in s.next ==> Slashless(p) && s.next[p] <= SEQUENCE_LIMIT)
    && (forall a :: a in s.log ==> ValidAllocation(s, a))
    && Increasing(s.log)
    && (forall path :: path in s.live ==> exists a :: a in s.log && a.path == path)
  }

  // ---- requests ----

  datatype Request =
    | CreateSequential(partition: string, prefix: string)
    | CheckVersion(version: nat)
    | Remove(path: string)

  datatype Code = ZOK | ZNONODE | ZBADVERSION | NoMoreNumbers

  /** `paths` holds the path that each request created, or an empty string. */
  datatype Response = Response(code: Code, state: Blocks, paths: seq<string>)

  function Created(s: Blocks, partition: string, prefix: string): Blocks
    requires partition in s.next
  {
    var number := s.next[partition];
    var path := Path(s.root, partition, prefix, number);
    Blocks(s.root, s.version, s.next[partition := number + 1], s.live + {path}, s.log + [Allocation(partition, number, path)])
  }

  function Execute(s: Blocks, r: Request): Response {
    match r
    case CreateSequential(partition, prefix) =>
      if partition !in s.next then Response(ZNONODE, s, [])
      else if s.next[partition] >= SEQUENCE_LIMIT then Response(NoMoreNumbers, s, [])
      else Response(ZOK, Created(s, partition, prefix), [Path(s.root, partition, prefix, s.next[partition])])
    case CheckVersion(version) =>
      if version != s.version then Response(ZBADVERSION, s, []) else Response(ZOK, s, [""])
    case Remove(path) =>
      if path !in s.live then Response(ZNONODE, s, [])
      else Response(ZOK, Blocks(s.root, s.version, s.next, s.live - {path}, s.log), [""])
  }

  function ExecuteAll(s: Blocks, requests: seq<Request>): Response
    decreases |requests|
  {
    if requests == [] then Response(ZOK, s, [])
    else
      var first := Execute(s, requests[0]);
      if first.code != ZOK then first
      else
        var more := ExecuteAll(first.state, requests[1..]);
        Response(more.code, more.state, first.paths + more.paths)
  }

  /** All of the requests, or none of them. */
  function Multi(s: Blocks, requests: seq<Request>): Response {
    var r := ExecuteAll(s, requests);
    if r.code == ZOK then r else Response(r.code, s, [])
  }

  // ---- other clients ----

  /** A partition is added together with a new version of the parent. */
  datatype Action =
    | Allocate(partition: string, prefix: string)
    | AddPartition(partition: string)
    | RemoveNode(path: string)
    | SetParent

  function Act(s: Blocks, a: Action): Blocks {
    match a
    case Allocate(partition, prefix) =>
      if Slashless(prefix) then Execute(s, CreateSequential(partition, prefix)).state else s
    case AddPartition(partition) =>
      if partition in s.next || !Slashless(partition) then s
      else Blocks(s.root, s.version + 1, s.next[partition := 0], s.live, s.log)
    case RemoveNode(path) => Execute(s, Remove(path)).state
    case SetParent => Blocks(s.root, s.version + 1, s.next, s.live, s.log)
  }

  function ActAll(s: Blocks, actions: seq<Action>): Blocks
    decreases |actions|
  {
    if actions == [] then s else ActAll(Act(s, actions[0]), actions[1..])
  }

  // ---- what others keep ----

  lemma CreatedValid(s: Blocks, partition: string, prefix: string)
    requires Valid(s) && partition in s.next && s.next[partition] < SEQUENCE_LIMIT && Slashless(prefix)
    ensures Valid(Created(s, partition, prefix))
  {
    var t := Created(s, partition, prefix);
    var last := t.log[|s.log|];
    assert ValidAllocation(t, last);
    forall a | a in t.log ensures ValidAllocation(t, a) {
      if a in s.log {
        assert ValidAllocation(s, a);
        var x :| Slashless(x) && a.path == Path(s.root, a.partition, x, a.number);
      }
    }
    forall i, j | 0 <= i < j < |t.log| && t.log[i].partition == t.log[j].partition ensures t.log[i].number < t.log[j].number {
      assert t.log[i] == s.log[i] && s.log[i] in s.log;
      assert ValidAllocation(s, s.log[i]);
    }
    forall path | path in t.live ensures exists a :: a in t.log && a.path == path {
      if path in s.live {
        var a :| a in s.log && a.path == path;
        assert a in t.log;
      } else {
        assert last in t.log;
      }
    }
  }

  /** What one step of another client leaves as it was. */
  ghost predicate Follows(s: Blocks, t: Blocks) {
    && t.root == s.root && t.version >= s.version
    && s.next.Keys <= t.next.Keys && (t.version == s.version ==> t.next.Keys == s.next.Keys)
    && (forall p :: p in s.next ==> s.next[p] <= t.next[p])
    && s.log <= t.log
    && (forall k :: |s.log| <= k < |t.log| && t.log[k].partition in s.next ==> t.log[k].number >= s.next[t.log[k].partition])
  }

  lemma FollowsTransitive(s: Blocks, t: Blocks, u: Blocks)
    requires Follows(s, t) && Follows(t, u)
    ensures Follows(s, u)
  {
    forall k | |s.log| <= k < |u.log| && u.log[k].partition in s.next ensures u.log[k].number >= s.next[u.log[k].partition] {
      if k < |t.log| {
        assert t.log[k] == u.log[k];
      }
    }
  }

  lemma RemovedValid(s: Blocks, path: string)
    requires Valid(s)
    ensures Valid(Execute(s, Remove(path)).state) && Follows(s, Execute(s, Remove(path)).state)
  {
    var t := Execute(s, Remove(path)).state;
    forall a | a in t.log ensures ValidAllocation(t, a) {
      assert ValidAllocation(s, a);
    }
  }

  lemma ActValid(s: Blocks, a: Action)
    requires Valid(s)
    ensures Valid(Act(s, a)) && Follows(s, Act(s, a))
  {
    match a
    case Allocate(partition, prefix) =>
      if Slashless(prefix) && partition in s.next && s.next[partition] < SEQUENCE_LIMIT {
        CreatedValid(s, partition, prefix);
      }
    case RemoveNode(path) => RemovedValid(s, path);
    case AddPartition(_) | SetParent =>
      var t := Act(s, a);
      forall b | b in t.log ensures ValidAllocation(t, b) {
        assert ValidAllocation(s, b);
      }
  }

  lemma {:induction false} ActAllValid(s: Blocks, actions: seq<Action>)
    requires Valid(s)
    ensures Valid(ActAll(s, actions)) && Follows(s, ActAll(s, actions))
    decreases |actions|
  {
    if actions != [] {
      hide Valid, Act;
      ActValid(s, actions[0]);
      ActAllValid(Act(s, actions[0]), actions[1..]);
      FollowsTransitive(s, Act(s, actions[0]), ActAll(s, actions));
    }
  }

  // ---- one request for all partitions ----

  function LockRequests(partitions: seq<string>, prefix: string, version: nat): seq<Request> {
    if partitions == [] then [CheckVersion(version)]
    else [CreateSequential(partitions[0], prefix)] + LockRequests(partitions[1..], prefix, version)
  }

  ghost predicate Distinct(names: seq<string>) {
    forall i, j :: 0 <= i < j < |names| ==> names[i] != names[j]
  }

  function NewAllocations(s: Blocks, partitions: seq<string>, prefix: string): seq<Allocation>
    requires forall p :: p in partitions ==> p in s.next
  {
    seq(|partitions|, i requires 0 <= i < |partitions| =>
      Allocation(partitions[i], s.next[partitions[i]], Path(s.root, partitions[i], prefix, s.next[partitions[i]])))
  }

  /** One new node in each of the partitions, and nothing else. */
  ghost predicate LockedIn(s: Blocks, t: Blocks, partitions: seq<string>, prefix: string)
    requires forall p :: p in partitions ==> p in s.next
  {
    && t.root == s.root && t.version == s.version
    && t.next.Keys == s.next.Keys
    && (forall p :: p in s.next ==> t.next[p] == s.next[p] + if p in partitions then 1 else 0)
    && t.log == s.log + NewAllocations(s, partitions, prefix)
    && (forall path :: path in t.live <==> path in s.live || exists a :: a in NewAllocations(s, partitions, prefix) && a.path == path)
  }

  /** One of the partitions has given out all its numbers. */
  ghost predicate Exhausted(s: Blocks, partitions: seq<string>)
    requires forall p :: p in partitions ==> p in s.next
  {
    exists p :: p in partitions && s.next[p] >= SEQUENCE_LIMIT
  }

  lemma {:induction false} LockAll(s: Blocks, partitions: seq<string>, prefix: string, version: nat)
    requires Valid(s) && Distinct(partitions) && Slashless(prefix)
    requires forall p :: p in partitions ==> p in s.next
    ensures
      var r := ExecuteAll(s, LockRequests(partitions, prefix, version));
      && (r.code == ZOK ==> version == s.version && Valid(r.state) && LockedIn(s, r.state, partitions, prefix))
      && (r.code == ZOK ==> forall p :: p in partitions ==> s.next[p] < SEQUENCE_LIMIT)
      && (r.code == ZOK ==> |r.paths| == |partitions| + 1
                            && forall i :: 0 <= i < |partitions| ==> r.paths[i] == NewAllocations(s, partitions, prefix)[i].path)
      && (r.code != ZOK ==> r.code == NoMoreNumbers || (r.code == ZBADVERSION && version != s.version))
      && (r.code == NoMoreNumbers ==> Exhausted(s, partitions))
    decreases |partitions|
  {
    hide LockedIn, Path, Valid;
    var requests := LockRequests(partitions, prefix, version);
    if partitions == [] {
      assert requests[1..] == [];
      LockedNothing(s, prefix);
    } else {
      var p, rest := partitions[0], partitions[1..];
      assert requests[0] == CreateSequential(p, prefix) && requests[1..] == LockRequests(rest, prefix, version);
      if s.next[p] < SEQUENCE_LIMIT {
        var t := Created(s, p, prefix);
        CreatedValid(s, p, prefix);
        assert p !in rest by {
          forall i | 0 <= i < |rest| ensures rest[i] != p {
            assert partitions[i + 1] == rest[i];
          }
        }
        LockAll(t, rest, prefix, version);
        var r := ExecuteAll(t, requests[1..]);
        if r.code == ZOK {
          LockedMore(s, r.state, partitions, prefix);
        }
      }
    }
  }

  lemma LockedNothing(s: Blocks, prefix: string)
    ensures LockedIn(s, s, [], prefix)
  {
    assert NewAllocations(s, [], prefix) == [];
  }

  lemma LockedMore(s: Blocks, u: Blocks, partitions: seq<string>, prefix: string)
    requires partitions != [] && partitions[0] !in partitions[1..]
    requires forall p :: p in partitions ==> p in s.next
    requires LockedIn(Created(s, partitions[0], prefix), u, partitions[1..], prefix)
    ensures LockedIn(s, u, partitions, prefix)
    ensures NewAllocations(s, partitions, prefix)[1..] == NewAllocations(Created(s, partitions[0], prefix), partitions[1..], prefix)
    ensures NewAllocations(s, partitions, prefix)[0].path == Path(s.root, partitions[0], prefix, s.next[partitions[0]])
  {
    hide Path, NewAllocations;
    var p, rest := partitions[0], partitions[1..];
    var t := Created(s, p, prefix);
    var first := Allocation(p, s.next[p], Path(s.root, p, prefix, s.next[p]));
    var all, more := NewAllocations(s, partitions, prefix), NewAllocations(t, rest, prefix);
    AllocationsSplit(s, partitions, prefix);
    assert s.log + ([first] + more) == s.log + [first] + more;
    assert forall a :: a in [first] + more <==> a == first || a in more;
    assert partitions == [p] + rest;
  }

  lemma AllocationsSplit(s: Blocks, partitions: seq<string>, prefix: string)
    requires partitions != [] && partitions[0] !in partitions[1..]
    requires forall p :: p in partitions ==> p in s.next
    ensures
      var p := partitions[0];
      NewAllocations(s, partitions, prefix)
      == [Allocation(p, s.next[p], Path(s.root, p, prefix, s.next[p]))] + NewAllocations(Created(s, p, prefix), partitions[1..], prefix)
  {
    hide Path;
    var rest := partitions[1..];
    forall i | 0 <= i < |rest| ensures partitions[i + 1] == rest[i] && rest[i] in rest {
    }
  }

  // ---- the client ----

  datatype LockInfo = LockInfo(path: string, partition: string, number: nat)

  /**
   * `schedule` says what others do before each request, and nothing after its end. `before` is the state that the last
   * request of this client met, and `sent` lists the changes that it asked for.
   */
  class Keeper {
    var state: Blocks
    var clock: nat
    const schedule: seq<seq<Action>>
    ghost var before: Blocks
    ghost var sent: seq<Request>

    constructor (state: Blocks, schedule: seq<seq<Action>>)
      ensures this.state == state && this.schedule == schedule && clock == 0 && sent == []
    {
      this.state, this.schedule, clock, before, sent := state, schedule, 0, state, [];
    }

    ghost function Coming(): seq<Action>
      reads this
    {
      if clock < |schedule| then schedule[clock] else []
    }

    method Interleave()
      modifies this
      ensures state == before == ActAll(old(state), old(Coming()))
      ensures clock == old(clock) + 1 && sent == old(sent)
    {
      if clock < |schedule| {
        state := ActAll(state, schedule[clock]);
      }
      clock := clock + 1;
      before := state;
    }

    method GetChildren() returns (children: seq<string>, version: nat)
      modifies this
      ensures state == before == ActAll(old(state), old(Coming()))
      ensures clock == old(clock) + 1 && sent == old(sent)
      ensures Distinct(children) && (forall p :: p in children <==> p in state.next) && version == state.version
    {
      Interleave();
      version := state.version;
      children := [];
      var left := state.next.Keys;
      while left != {}
        invariant left <= state.next.Keys
        invariant Distinct(children) && forall p :: p in children <==> p in state.next && p !in left
      {
        var p :| p in left;
        left := left - {p};
        children := children + [p];
      }
    }

    method TryMulti(requests: seq<Request>) returns (code: Code, paths: seq<string>)
      modifies this
      ensures before == ActAll(old(state), old(Coming()))
      ensures clock == old(clock) + 1 && sent == old(sent) + requests
      ensures Multi(before, requests) == Response(code, state, paths)
    {
      Interleave();
      var r := Multi(state, requests);
      code, state, paths := r.code, r.state, r.paths;
      sent := sent + requests;
    }

    method AsyncRemove(path: string) returns (code: Code)
      modifies this
      ensures before == ActAll(old(state), old(Coming()))
      ensures clock == old(clock) + 1 && sent == old(sent) + [Remove(path)]
      ensures Execute(before, Remove(path)).code == code && Execute(before, Remove(path)).state == state
    {
      Interleave();
      var r := Execute(state, Remove(path));
      code, state := r.code, r.state;
      sent := sent + [Remove(path)];
    }
  }

  /** What others do before request number `i`. */
  function Slot(schedule: seq<seq<Action>>, i: nat): seq<Action> {
    if i < |schedule| then schedule[i] else []
  }

  /** What others make of a state before the requests from number `first` up to, and without, number `end`. */
  function Others(s: Blocks, schedule: seq<seq<Action>>, first: nat, end: nat): Blocks
    decreases end
  {
    if end <= first then s else ActAll(Others(s, schedule, first, end - 1), Slot(schedule, end - 1))
  }

  predicate QuietFrom(schedule: seq<seq<Action>>, first: nat) {
    forall i :: first <= i < |schedule| ==> schedule[i] == []
  }

  lemma {:induction false} OthersQuiet(s: Blocks, schedule: seq<seq<Action>>, first: nat, end: nat)
    requires QuietFrom(schedule, first)
    ensures Others(s, schedule, first, end) == s
    decreases end
  {
    if first < end {
      OthersQuiet(s, schedule, first, end - 1);
    }
  }

  lemma OthersNext(s: Blocks, schedule: seq<seq<Action>>, first: nat, end: nat)
    requires first <= end
    ensures Others(s, schedule, first, end + 1) == ActAll(Others(s, schedule, first, end), Slot(schedule, end))
    ensures Others(s, schedule, first, first) == s
  {
  }

  /** The locks hold one number in every partition there was, numbers that nobody had before. */
  ghost predicate LocksEverything(before: Blocks, after: Blocks, locks: seq<LockInfo>, prefix: string) {
    && (forall p :: p in before.next <==> exists i :: 0 <= i < |locks| && locks[i].partition == p)
    && (forall i, j :: 0 <= i < j < |locks| ==> locks[i].partition != locks[j].partition)
    && (forall i :: 0 <= i < |locks| ==> HoldsNext(before, after, locks[i], prefix))
    && after.root == before.root && after.version == before.version && after.next.Keys == before.next.Keys
    && after.live == before.live + Paths(locks)
    && |after.log| == |before.log| + |locks| && before.log <= after.log
    && (forall i :: 0 <= i < |locks| ==> after.log[|before.log| + i] == Allocation(locks[i].partition, locks[i].number, locks[i].path))
  }

  function Paths(locks: seq<LockInfo>): set<string> {
    set l | l in locks :: l.path
  }

  ghost predicate HoldsNext(before: Blocks, after: Blocks, l: LockInfo, prefix: string) {
    && l.partition in before.next && l.partition in after.next
    && l.number == before.next[l.partition] && after.next[l.partition] == l.number + 1
    && l.path == Path(before.root, l.partition, prefix, l.number) && l.path in after.live
  }

  /** `zookeeper` is null where nothing is locked. */
  class EphemeralLocksInAllPartitions {
    var zookeeper: Keeper?
    var locks: seq<LockInfo>

    constructor ()
      ensures zookeeper == null && locks == []
    {
      zookeeper, locks := null, [];
    }

    /** The constructor of the source, which throws on any code other than ZOK. A retry uses up a part of the schedule.
        Before the request that decides nobody but the others changed anything. */
    method Lock(root: string, prefix: string, keeper: Keeper) returns (code: Code)
      requires zookeeper == null && locks == []
      requires Valid(keeper.state) && keeper.state.root == root && Slashless(prefix)
      modifies this, keeper
      ensures Valid(keeper.state)
      ensures keeper.clock >= old(keeper.clock) + 2
      ensures keeper.before == Others(old(keeper.state), keeper.schedule, old(keeper.clock), keeper.clock)
      ensures code == ZOK ==> zookeeper == keeper && Valid(keeper.before) && LocksEverything(keeper.before, keeper.state, locks, prefix)
      ensures code != ZOK ==> keeper.state == keeper.before
      ensures QuietFrom(keeper.schedule, old(keeper.clock)) ==> keeper.before == old(keeper.state) && keeper.clock == old(keeper.clock) + 2
      ensures code != ZOK ==> zookeeper == null && locks == []
      ensures code != ZOK ==> code == NoMoreNumbers && exists p :: p in keeper.before.next && keeper.before.next[p] >= SEQUENCE_LIMIT
    {
      hide ActAll, Valid, ExecuteAll, LocksEverything, LockRequests, Others;
      ghost var start, schedule, first := keeper.state, keeper.schedule, keeper.clock;
      OthersNext(start, schedule, first, first);
      while true
        invariant Valid(keeper.state) && keeper.state.root == root
        invariant zookeeper == null && locks == []
        invariant keeper.clock >= old(keeper.clock)
        invariant keeper.state == Others(old(keeper.state), keeper.schedule, old(keeper.clock), keeper.clock)
        invariant QuietFrom(keeper.schedule, old(keeper.clock)) ==> keeper.clock == old(keeper.clock)
        decreases |keeper.schedule| - keeper.clock
      {
        ActAllValid(keeper.state, keeper.Coming());
        OthersNext(start, schedule, first, keeper.clock);
        OthersNext(start, schedule, first, keeper.clock + 1);
        if QuietFrom(schedule, first) {
          OthersQuiet(start, schedule, first, keeper.clock + 1);
          OthersQuiet(start, schedule, first, keeper.clock + 2);
        }
        var partitions, version := keeper.GetChildren();
        var lockRequests := CollectLockRequests(partitions, prefix, version);
        ghost var seen := keeper.state;
        ghost var coming := keeper.Coming();
        ActAllValid(seen, coming);
        ghost var before := ActAll(seen, coming);
        LockAll(before, partitions, prefix, version);
        MultiRejects(before, lockRequests);
        var rc, paths := keeper.TryMulti(lockRequests);
        if rc == ZBADVERSION {
          NothingComing(seen);
          continue;
        }
        if rc != ZOK {
          return rc;
        }
        var all := RecordLocks(root, prefix, partitions, paths, before);
        LocksAreEverything(before, keeper.state, partitions, all, prefix);
        zookeeper, locks := keeper, all;
        return ZOK;
      }
    }

    /** All removals are sent before the first answer is looked at; an error leaves the object as it was. */
    method Unlock() returns (code: Code)
      requires zookeeper != null ==> Valid(zookeeper.state) && forall l :: l in locks ==> Allocated(zookeeper.state, l)
      modifies this, zookeeper
      ensures old(zookeeper) == null ==> code == ZOK && zookeeper == null && locks == old(locks)
      ensures code == ZOK && old(zookeeper) != null ==> zookeeper == null && locks == []
      ensures code != ZOK ==> zookeeper == old(zookeeper) && locks == old(locks)
      ensures
        var keeper := old(zookeeper);
        keeper != null ==>
          && Valid(keeper.state) && keeper.sent == old(zookeeper.sent) + Removals(old(locks))
          && (forall l :: l in old(locks) ==> l.path !in keeper.state.live)
          && (code == ZOK <==> RemovedCleanly(old(zookeeper.state), old(locks), old(zookeeper.clock), keeper.schedule))
          && keeper.clock == old(zookeeper.clock) + |old(locks)|
          && (QuietFrom(keeper.schedule, old(zookeeper.clock)) ==> keeper.state == WithoutPaths(old(zookeeper.state), Paths(old(locks))))
    {
      if zookeeper == null {
        return ZOK;
      }
      hide ActAll, Valid, Allocated, RemovedCleanly, Removals;
      var codes := SendRemovals(zookeeper, locks);
      for i := 0 to |codes|
        invariant forall k :: 0 <= k < i ==> codes[k] == ZOK
        invariant zookeeper == old(zookeeper) && locks == old(locks)
      {
        if codes[i] != ZOK {
          return codes[i];
        }
      }
      locks := [];
      zookeeper := null;
      return ZOK;
    }

    /** After the removals were part of another request: nothing is sent any more. */
    method AssumeUnlocked()
      modifies this
      ensures zookeeper == null && locks == old(locks)
    {
      zookeeper := null;
    }

    method GetUnlockOps() returns (ops: seq<Request>)
      ensures ops == if zookeeper == null then [] else Removals(locks)
    {
      if zookeeper == null {
        return [];
      }
      ops := [];
      for i := 0 to |locks|
        invariant ops == Removals(locks[..i])
      {
        ops := ops + [Remove(locks[i].path)];
      }
      assert locks[..|locks|] == locks;
    }
  }

  method SendRemovals(keeper: Keeper, locks: seq<LockInfo>) returns (codes: seq<Code>)
    requires Valid(keeper.state) && forall l :: l in locks ==> Allocated(keeper.state, l)
    modifies keeper
    ensures Valid(keeper.state) && keeper.sent == old(keeper.sent) + Removals(locks)
    ensures forall l :: l in locks ==> l.path !in keeper.state.live
    ensures AllOk(codes) <==> RemovedCleanly(old(keeper.state), locks, old(keeper.clock), keeper.schedule)
    ensures keeper.clock == old(keeper.clock) + |locks|
    ensures QuietFrom(keeper.schedule, old(keeper.clock)) ==> keeper.state == WithoutPaths(old(keeper.state), Paths(locks))
  {
    hide WithoutPaths, Paths, ActAll, Valid, Allocated, Execute, Removing, RemovedCleanly, Removals, AllOk;
    codes := [];
    AllOkLast([], ZOK);
    RemovingStart(keeper.state, locks, keeper.clock, keeper.schedule);
    WithoutNothing(keeper.state);
    assert locks[0..] == locks && locks[..0] == [];
    for i := 0 to |locks|
      invariant Removing(keeper.state, locks, i)
      invariant keeper.sent == old(keeper.sent) + Removals(locks[..i])
      invariant AllOk(codes) && RemovedCleanly(keeper.state, locks[i..], keeper.clock, keeper.schedule)
           <==> RemovedCleanly(old(keeper.state), locks, old(keeper.clock), keeper.schedule)
      invariant keeper.clock == old(keeper.clock) + i
      invariant QuietFrom(keeper.schedule, old(keeper.clock)) ==> keeper.state == WithoutPaths(old(keeper.state), Paths(locks[..i]))
    {
      NothingComing(keeper.state);
      WithoutOneMore(old(keeper.state), locks, i);
      RemovingStep(keeper.state, keeper.Coming(), locks, i);
      CleanlyStep(keeper.state, locks[i..], keeper.clock, keeper.schedule);
      RemovalsStep(locks, i);
      var c := keeper.AsyncRemove(locks[i].path);
      AllOkLast(codes, c);
      codes := codes + [c];
    }
    RemovingEnd(keeper.state, locks, keeper.clock, keeper.schedule);
  }

  function WithoutPaths(s: Blocks, paths: set<string>): Blocks {
    Blocks(s.root, s.version, s.next, s.live - paths, s.log)
  }

  lemma WithoutNothing(s: Blocks)
    ensures WithoutPaths(s, Paths([])) == s
  {
    assert s.live - Paths([]) == s.live;
  }

  lemma WithoutOneMore(s: Blocks, locks: seq<LockInfo>, i: nat)
    requires i < |locks|
    ensures Execute(WithoutPaths(s, Paths(locks[..i])), Remove(locks[i].path)).state == WithoutPaths(s, Paths(locks[..i + 1]))
  {
    var some, more := Paths(locks[..i]), Paths(locks[..i + 1]);
    assert locks[..i + 1] == locks[..i] + [locks[i]];
    assert more == some + {locks[i].path};
    assert s.live - some - {locks[i].path} == s.live - more;
    if locks[i].path !in s.live - some {
      assert s.live - some == s.live - more;
    }
  }

  predicate AllOk(codes: seq<Code>) {
    forall k :: 0 <= k < |codes| ==> codes[k] == ZOK
  }

  lemma AllOkLast(codes: seq<Code>, c: Code)
    ensures AllOk([]) && (AllOk(codes + [c]) <==> AllOk(codes) && c == ZOK)
  {
    assert forall k :: 0 <= k < |codes| ==> (codes + [c])[k] == codes[k];
    assert (codes + [c])[|codes|] == c;
  }

  function Removals(locks: seq<LockInfo>): seq<Request> {
    seq(|locks|, i requires 0 <= i < |locks| => Remove(locks[i].path))
  }

  ghost predicate Allocated(s: Blocks, l: LockInfo) {
    Allocation(l.partition, l.number, l.path) in s.log
  }

  /** Nobody else removes a node before its turn comes. */
  ghost predicate RemovedCleanly(s: Blocks, locks: seq<LockInfo>, clock: nat, schedule: seq<seq<Action>>)
    decreases |locks|
  {
    locks == [] ||
    var others := ActAll(s, if clock < |schedule| then schedule[clock] else []);
    locks[0].path in others.live && RemovedCleanly(Execute(others, Remove(locks[0].path)).state, locks[1..], clock + 1, schedule)
  }

  lemma CleanlyStep(s: Blocks, locks: seq<LockInfo>, clock: nat, schedule: seq<seq<Action>>)
    requires locks != []
    ensures
      var others := ActAll(s, if clock < |schedule| then schedule[clock] else []);
      var r := Execute(others, Remove(locks[0].path));
      RemovedCleanly(s, locks, clock, schedule) <==> r.code == ZOK && RemovedCleanly(r.state, locks[1..], clock + 1, schedule)
  {
  }

  /** The first `i` locks are gone, and none of the numbers was forgotten. */
  ghost predicate Removing(s: Blocks, locks: seq<LockInfo>, i: nat) {
    && Valid(s) && i <= |locks|
    && (forall l :: l in locks ==> Allocated(s, l))
    && (forall k :: 0 <= k < i ==> locks[k].path !in s.live)
  }

  lemma RemovingStep(s: Blocks, coming: seq<Action>, locks: seq<LockInfo>, i: nat)
    requires i < |locks| && Removing(s, locks, i)
    ensures Removing(Execute(ActAll(s, coming), Remove(locks[i].path)).state, locks, i + 1)
  {
    hide Valid, Allocated, Execute;
    var others, path := ActAll(s, coming), locks[i].path;
    var t := Execute(others, Remove(path)).state;
    ActAllValid(s, coming);
    RemovedValid(others, path);
    RemoveOnly(others, path);
    forall l | l in locks ensures Allocated(t, l) {
      StillAllocated(s, coming, l, path);
    }
    forall k | 0 <= k < i ensures locks[k].path !in t.live {
      assert locks[k] in locks;
      GoneStays(s, coming, locks[k]);
    }
  }

  lemma RemovingStart(s: Blocks, locks: seq<LockInfo>, clock: nat, schedule: seq<seq<Action>>)
    requires Valid(s) && forall l :: l in locks ==> Allocated(s, l)
    ensures Removing(s, locks, 0) && Removals([]) == []
  {
  }

  lemma RemovingEnd(s: Blocks, locks: seq<LockInfo>, clock: nat, schedule: seq<seq<Action>>)
    requires Removing(s, locks, |locks|)
    ensures Valid(s) && (forall l :: l in locks ==> l.path !in s.live)
    ensures RemovedCleanly(s, locks[|locks|..], clock, schedule) && locks[..|locks|] == locks
  {
  }

  lemma RemovalsStep(locks: seq<LockInfo>, i: nat)
    requires i < |locks|
    ensures Removals(locks[..i + 1]) == Removals(locks[..i]) + [Remove(locks[i].path)]
    ensures locks[i..][0] == locks[i] && locks[i..][1..] == locks[i + 1..]
  {
  }

  lemma RemoveOnly(s: Blocks, path: string)
    ensures Execute(s, Remove(path)).state.live == s.live - {path}
  {
  }

  lemma StillAllocated(s: Blocks, actions: seq<Action>, l: LockInfo, path: string)
    requires Valid(s) && Allocated(s, l)
    ensures Allocated(Execute(ActAll(s, actions), Remove(path)).state, l)
  {
    ActAllValid(s, actions);
  }

  lemma PathShape(root: string, p: string, x: string, m: nat)
    ensures Path(root, p, x, m) == (root + "/") + (p + ("/" + x + Padded(m, 10)))
    ensures |Padded(m, 10)| == 10
  {
    hide Padded;
  }

  /** A path tells the partition and the number. */
  lemma PathInjective(root: string, p: string, x: string, m: nat, q: string, y: string, n: nat)
    requires Slashless(p) && Slashless(x) && Slashless(q) && Slashless(y)
    requires m < SEQUENCE_LIMIT && n < SEQUENCE_LIMIT
    requires Path(root, p, x, m) == Path(root, q, y, n)
    ensures p == q && m == n
  {
    var a, b := "/" + x + Padded(m, 10), "/" + y + Padded(n, 10);
    hide Path, Padded;
    PathShape(root, p, x, m);
    PathShape(root, q, y, n);
    var start := root + "/";
    assert p + a == (start + (p + a))[|start|..] == (start + (q + b))[|start|..] == q + b;
    FirstSlash(p, a, q, b);
    assert Padded(m, 10) == a[|a| - 10..] && Padded(n, 10) == b[|b| - 10..];
    ParsePadded(m, 10);
    ParsePadded(n, 10);
  }

  lemma FirstSlash(p: string, a: string, q: string, b: string)
    requires Slashless(p) && Slashless(q) && a != "" && b != "" && a[0] == '/' == b[0] && p + a == q + b
    ensures p == q && a == b
  {
    assert forall k :: 0 <= k < |p| ==> (p + a)[k] == p[k];
    assert forall k :: 0 <= k < |q| ==> (q + b)[k] == q[k];
    assert (p + a)[|p|] == '/' == (q + b)[|q|];
    assert |p| == |q|;
    assert p == (p + a)[..|p|] && a == (p + a)[|p|..];
  }

  /** A number is never given out again, so a removed node does not come back. */
  lemma {:induction false} GoneStays(s: Blocks, actions: seq<Action>, l: LockInfo)
    requires Valid(s) && Allocated(s, l) && l.path !in s.live
    ensures l.path !in ActAll(s, actions).live
    decreases |actions|
  {
    if actions != [] {
      var t := Act(s, actions[0]);
      ActValid(s, actions[0]);
      GoneAfter(s, actions[0], l);
      GoneStays(t, actions[1..], l);
    }
  }

  lemma GoneAfter(s: Blocks, a: Action, l: LockInfo)
    requires Valid(s) && Allocated(s, l) && l.path !in s.live
    ensures l.path !in Act(s, a).live && Allocated(Act(s, a), l)
  {
    hide Path;
    if a.Allocate? && Slashless(a.prefix) && a.partition in s.next && s.next[a.partition] < SEQUENCE_LIMIT {
      var mine := Allocation(l.partition, l.number, l.path);
      assert ValidAllocation(s, mine);
      var x :| Slashless(x) && l.path == Path(s.root, l.partition, x, l.number);
      if Path(s.root, a.partition, a.prefix, s.next[a.partition]) == l.path {
        PathInjective(s.root, a.partition, a.prefix, s.next[a.partition], l.partition, x, l.number);
      }
    }
  }

  method CollectLockRequests(partitions: seq<string>, prefix: string, version: nat) returns (requests: seq<Request>)
    ensures requests == LockRequests(partitions, prefix, version)
  {
    hide LockRequests;
    requests := [];
    assert partitions[0..] == partitions;
    for i := 0 to |partitions|
      invariant requests + LockRequests(partitions[i..], prefix, version) == LockRequests(partitions, prefix, version)
    {
      LockRequestsStep(partitions, i, prefix, version);
      requests := requests + [CreateSequential(partitions[i], prefix)];
    }
    LockRequestsStep(partitions, |partitions|, prefix, version);
    requests := requests + [CheckVersion(version)];
  }

  lemma LockRequestsStep(partitions: seq<string>, i: nat, prefix: string, version: nat)
    requires i <= |partitions|
    ensures LockRequests(partitions[i..], prefix, version)
         == if i == |partitions| then [CheckVersion(version)]
            else [CreateSequential(partitions[i], prefix)] + LockRequests(partitions[i + 1..], prefix, version)
  {
    assert i < |partitions| ==> partitions[i..][1..] == partitions[i + 1..];
  }

  lemma NothingComing(s: Blocks)
    ensures ActAll(s, []) == s
  {
  }

  lemma MultiRejects(s: Blocks, requests: seq<Request>)
    ensures
      var r := ExecuteAll(s, requests);
      Multi(s, requests) == if r.code == ZOK then r else Response(r.code, s, [])
  {
  }

  /** Reads the numbers back from the created paths. */
  method RecordLocks(
      root: string, prefix: string, partitions: seq<string>, paths: seq<string>, ghost before: Blocks)
    returns (locks: seq<LockInfo>)
    requires Valid(before) && before.root == root && Distinct(partitions)
    requires forall p :: p in partitions ==> p in before.next && before.next[p] < SEQUENCE_LIMIT
    requires |paths| == |partitions| + 1
    requires forall i :: 0 <= i < |partitions| ==> paths[i] == NewAllocations(before, partitions, prefix)[i].path
    ensures |locks| == |partitions|
    ensures forall i :: 0 <= i < |locks| ==> locks[i] == LockInfo(paths[i], partitions[i], before.next[partitions[i]])
  {
    hide Path, Valid;
    locks := [];
    for i := 0 to |partitions|
      invariant |locks| == i
      invariant forall k :: 0 <= k < i ==> locks[k] == LockInfo(paths[k], partitions[k], before.next[partitions[k]])
    {
      var prefixSize := |root| + 1 + |partitions[i]| + 1 + |prefix|;
      assert partitions[i] in partitions;
      NumberReadBack(root, partitions[i], prefix, before.next[partitions[i]]);
      var number := ParseSequentialNodeNumber(paths[i], prefixSize);
      locks := locks + [LockInfo(paths[i], partitions[i], number.value)];
    }
  }

  lemma NumberReadBack(root: string, partition: string, prefix: string, number: nat)
    requires number < SEQUENCE_LIMIT
    ensures ParseSequentialNodeNumber(Path(root, partition, prefix, number), |root| + 1 + |partition| + 1 + |prefix|) == Some(number)
  {
    ParseSequentialName(NodePrefix(root, partition, prefix), number);
  }

  lemma LocksAreEverything(before: Blocks, after: Blocks, partitions: seq<string>, locks: seq<LockInfo>, prefix: string)
    requires Distinct(partitions) && forall p :: p in partitions <==> p in before.next
    requires LockedIn(before, after, partitions, prefix)
    requires |locks| == |partitions|
    requires forall i :: 0 <= i < |locks| ==>
               locks[i] == LockInfo(NewAllocations(before, partitions, prefix)[i].path, partitions[i], before.next[partitions[i]])
    ensures LocksEverything(before, after, locks, prefix)
  {
    hide Path, NewAllocations, LockedIn, HoldsNext, Distinct;
    var news := NewAllocations(before, partitions, prefix);
    LockedFacts(before, after, partitions, prefix);
    forall i | 0 <= i < |locks|
      ensures HoldsNext(before, after, locks[i], prefix) && after.log[|before.log| + i] == Allocation(locks[i].partition, locks[i].number, locks[i].path)
    {
      LockHoldsNext(before, after, partitions, prefix, i);
      assert after.log[|before.log| + i] == news[i];
    }
    forall i, j | 0 <= i < j < |locks| ensures locks[i].partition != locks[j].partition {
      PartitionsDiffer(partitions, i, j);
    }
    forall p ensures p in before.next <==> exists i :: 0 <= i < |locks| && locks[i].partition == p {
      PartitionLocked(partitions, locks, p);
    }
    LivePaths(before, after, partitions, locks, prefix);
  }

  lemma LivePaths(before: Blocks, after: Blocks, partitions: seq<string>, locks: seq<LockInfo>, prefix: string)
    requires forall p :: p in partitions ==> p in before.next
    requires LockedIn(before, after, partitions, prefix)
    requires |locks| == |partitions|
    requires forall i :: 0 <= i < |locks| ==> locks[i].path == NewAllocations(before, partitions, prefix)[i].path
    ensures after.live == before.live + Paths(locks)
  {
    var news := NewAllocations(before, partitions, prefix);
    hide NewAllocations, Path;
    assert |news| == |partitions|;
    forall path ensures (exists a :: a in news && a.path == path) <==> path in Paths(locks) {
      if a :| a in news && a.path == path {
        var i :| 0 <= i < |news| && news[i] == a;
        assert locks[i] in locks;
      }
      if path in Paths(locks) {
        var l :| l in locks && l.path == path;
        var i :| 0 <= i < |locks| && locks[i] == l;
        assert news[i] in news;
      }
    }
  }

  lemma PartitionLocked(partitions: seq<string>, locks: seq<LockInfo>, p: string)
    requires |locks| == |partitions| && forall i :: 0 <= i < |locks| ==> locks[i].partition == partitions[i]
    ensures p in partitions <==> exists i :: 0 <= i < |locks| && locks[i].partition == p
  {
    if p in partitions {
      var i :| 0 <= i < |partitions| && partitions[i] == p;
      assert locks[i].partition == p;
    }
  }

  lemma PartitionsDiffer(partitions: seq<string>, i: nat, j: nat)
    requires Distinct(partitions) && i < j < |partitions|
    ensures partitions[i] != partitions[j]
  {
  }

  lemma LockedFacts(before: Blocks, after: Blocks, partitions: seq<string>, prefix: string)
    requires forall p :: p in partitions ==> p in before.next
    requires LockedIn(before, after, partitions, prefix)
    ensures after.root == before.root && after.version == before.version && after.next.Keys == before.next.Keys
    ensures after.log == before.log + NewAllocations(before, partitions, prefix)
    ensures |NewAllocations(before, partitions, prefix)| == |partitions|
  {
  }

  lemma LockHoldsNext(before: Blocks, after: Blocks, partitions: seq<string>, prefix: string, i: nat)
    requires forall p :: p in partitions ==> p in before.next
    requires LockedIn(before, after, partitions, prefix) && i < |partitions|
    ensures
      var news, number := NewAllocations(before, partitions, prefix), before.next[partitions[i]];
      && i < |news| && news[i].number == number && news[i].partition == partitions[i]
      && HoldsNext(before, after, LockInfo(news[i].path, partitions[i], number), prefix)
  {
    hide Path;
    var news := NewAllocations(before, partitions, prefix);
    assert partitions[i] in partitions && news[i] in news;
  }

  // ---- main result ----

  /**
   * In every partition that existed when the locks were taken, the locked number lies above everything that was given
   * out before and below everything that is given out later.
   */
  lemma LocksSeparateAllocations(
      before: Blocks, after: Blocks, locks: seq<LockInfo>, prefix: string, actions: seq<Action>, i: nat, k: nat)
    requires Valid(before) && Valid(after) && LocksEverything(before, after, locks, prefix)
    requires i < |locks| && k < |ActAll(after, actions).log| && ActAll(after, actions).log[k].partition == locks[i].partition
    ensures
      var number := ActAll(after, actions).log[k].number;
      if k < |before.log| then number < locks[i].number
      else if k < |after.log| then number == locks[i].number && k == |before.log| + i
      else number > locks[i].number
  {
    hide Valid, ActAll, LocksEverything, Path;
    var t := ActAll(after, actions);
    ActAllValid(after, actions);
    LockFacts(before, after, locks, prefix, i);
    if k < |before.log| {
      assert t.log[k] == after.log[k] == before.log[k];
      LoggedBelowNext(before, k);
    } else if k < |after.log| {
      LockFacts(before, after, locks, prefix, k - |before.log|);
      assert t.log[k] == after.log[k];
      DistinctPartitions(before, after, locks, prefix, i, k - |before.log|);
    }
  }

  lemma LockFacts(before: Blocks, after: Blocks, locks: seq<LockInfo>, prefix: string, i: nat)
    requires LocksEverything(before, after, locks, prefix) && i < |locks|
    ensures HoldsNext(before, after, locks[i], prefix) && |after.log| == |before.log| + |locks| && before.log <= after.log
    ensures after.log[|before.log| + i] == Allocation(locks[i].partition, locks[i].number, locks[i].path)
  {
  }

  lemma DistinctPartitions(before: Blocks, after: Blocks, locks: seq<LockInfo>, prefix: string, i: nat, j: nat)
    requires LocksEverything(before, after, locks, prefix) && i < |locks| && j < |locks| && locks[i].partition == locks[j].partition
    ensures i == j
  {
  }

  lemma LoggedBelowNext(s: Blocks, k: nat)
    requires Valid(s) && k < |s.log|
    ensures s.log[k].partition in s.next && s.log[k].number < s.next[s.log[k].partition]
  {
    assert s.log[k] in s.log && ValidAllocation(s, s.log[k]);
  }

  /** Locks that were taken can be given back at any later time. */
  lemma LocksStayAllocated(
      before: Blocks, after: Blocks, locks: seq<LockInfo>, prefix: string, actions: seq<Action>, l: LockInfo)
    requires Valid(after) && LocksEverything(before, after, locks, prefix) && l in locks
    ensures Valid(ActAll(after, actions)) && Allocated(ActAll(after, actions), l)
  {
    var i :| 0 <= i < |locks| && locks[i] == l;
    LockFacts(before, after, locks, prefix, i);
    ActAllValid(after, actions);
    assert after.log[|before.log| + i] in after.log && after.log[|before.log| + i] in ActAll(after, actions).log;
  }
}
