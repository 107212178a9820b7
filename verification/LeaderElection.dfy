/**
 * Making sure that no replica of an old version is a leader (LeaderElection.h). Other replicas act between any two
 * requests of this one; what they do is given as a schedule.
 */
module LeaderElection {
  import opened Options
  import opened SequentialNodes

  const PERSISTENT := "leader_election-0"
  const CANDIDATE_PREFIX := "leader_election-"
  const SUFFIX := " (multiple leaders Ok)"
  const PERSISTENT_IDENTIFIER := "all (multiple leaders Ok)"
  const MAX_TRIES := 1000

  // ---- the election node ----

  datatype Node = Node(identifier: string, version: nat)

  /** `counter` numbers the next sequential child. */
  datatype Election = Absent | Present(children: map<string, Node>, counter: nat)

  predicate IsCandidate(name: string, counter: nat) {
    exists n: nat :: n < counter && name == SequentialName(CANDIDATE_PREFIX, n)
  }

  ghost predicate Valid(s: Election) {
    s.Present? ==> s.counter <= SEQUENCE_LIMIT && forall name :: name in s.children ==> name == PERSISTENT || IsCandidate(name, s.counter)
  }

  // ---- requests ----

  datatype Request =
    | RemovePath
    | CreatePath
    | CreateNode(name: string, identifier: string)
    | CheckNode(name: string, version: nat)

  datatype Code = ZOK | ZNONODE | ZNODEEXISTS | ZNOTEMPTY | ZBADVERSION

  datatype Response = Response(code: Code, state: Election)

  function Execute(s: Election, r: Request): Response {
    match r
    case RemovePath =>
      if s.Absent? then Response(ZNONODE, s)
      else if s.children != map[] then Response(ZNOTEMPTY, s)
      else Response(ZOK, Absent)
    case CreatePath =>
      if s.Present? then Response(ZNODEEXISTS, s) else Response(ZOK, Present(map[], 0))
    case CreateNode(name, identifier) =>
      if s.Absent? then Response(ZNONODE, s)
      else if name in s.children then Response(ZNODEEXISTS, s)
      else Response(ZOK, Present(s.children[name := Node(identifier, 0)], s.counter))
    case CheckNode(name, version) =>
      if s.Absent? || name !in s.children then Response(ZNONODE, s)
      else if s.children[name].version != version then Response(ZBADVERSION, s)
      else Response(ZOK, s)
  }

  function ExecuteAll(s: Election, requests: seq<Request>): Response
    decreases |requests|
  {
    if requests == [] then Response(ZOK, s)
    else
      var first := Execute(s, requests[0]);
      if first.code != ZOK then first else ExecuteAll(first.state, requests[1..])
  }

  /** All of the requests, or none of them. */
  function Multi(s: Election, requests: seq<Request>): Response {
    var r := ExecuteAll(s, requests);
    if r.code == ZOK then r else Response(r.code, s)
  }

  const ENABLE_EMPTY := [RemovePath, CreatePath, CreateNode(PERSISTENT, PERSISTENT_IDENTIFIER)]

  function EnableBehind(leader: string, version: nat): seq<Request> {
    [CheckNode(leader, version), CreateNode(PERSISTENT, PERSISTENT_IDENTIFIER)]
  }

  // ---- other replicas ----

  /** `Recreate` is the election of a new table under the old path. */
  datatype Action =
    | CreateCandidate(identifier: string)
    | DropCandidate(name: string)
    | SetIdentifier(name: string, identifier: string)
    | OtherEnablesEmpty
    | OtherEnablesBehind(leader: string, version: nat)
    | DropTable
    | Recreate

  function Act(s: Election, a: Action): Election {
    match a
    case CreateCandidate(identifier) =>
      if s.Absent? || s.counter >= SEQUENCE_LIMIT then s
      else Present(s.children[SequentialName(CANDIDATE_PREFIX, s.counter) := Node(identifier, 0)], s.counter + 1)
    case DropCandidate(name) =>
      if s.Absent? || name == PERSISTENT then s else Present(s.children - {name}, s.counter)
    case SetIdentifier(name, identifier) =>
      if s.Absent? || name !in s.children then s
      else Present(s.children[name := Node(identifier, s.children[name].version + 1)], s.counter)
    case OtherEnablesEmpty => Multi(s, ENABLE_EMPTY).state
    case OtherEnablesBehind(leader, version) => Multi(s, EnableBehind(leader, version)).state
    case DropTable => Absent
    case Recreate => if s.Absent? then Present(map[], 0) else s
  }

  function ActAll(s: Election, actions: seq<Action>): Election
    decreases |actions|
  {
    if actions == [] then s else ActAll(Act(s, actions[0]), actions[1..])
  }

  // ---- leaders ----

  predicate SupportsMultipleLeaders(identifier: string) {
    |SUFFIX| <= |identifier| && identifier[|identifier| - |SUFFIX|..] == SUFFIX
  }

  predicate IsSmallest(name: string, names: set<string>) {
    name in names && forall other :: other in names && other != name ==> Less(name, other)
  }

  /** The replica that versions before 21.12 take for the leader, if there is one, allows others beside it. */
  ghost predicate LeaderAllowsOthers(s: Election) {
    s.Present? ==> forall name :: IsSmallest(name, s.children.Keys) ==> SupportsMultipleLeaders(s.children[name].identifier)
  }

  lemma PersistentIsSmallest(name: string, counter: nat)
    requires IsCandidate(name, counter)
    ensures Less(PERSISTENT, name) && name != PERSISTENT
  {
    var n: nat :| n < counter && name == SequentialName(CANDIDATE_PREFIX, n);
    var digits := Padded(n, 10);
    LessPrefixed(CANDIDATE_PREFIX, "0", digits);
    assert PERSISTENT == CANDIDATE_PREFIX + "0";
    FirstDigit(n, 9);
    assert Less("", digits[1..]);
    assert |PERSISTENT| != |name|;
  }

  lemma {:induction false} FirstDigit(n: nat, k: nat)
    ensures Padded(n, k + 1)[0] >= '0'
  {
    if k > 0 {
      FirstDigit(n / 10, k - 1);
    }
  }

  // ---- what stays true while others act ----

  /** The election as it was seen has ended, or has gone on: nodes are the same or newer, and new ones come later. */
  ghost predicate Since(seen: Election, now: Election)
    requires seen.Present?
  {
    || now.Absent?
    || PERSISTENT in now.children
    || (now.counter >= seen.counter && forall name :: name in now.children ==>
          || (name in seen.children && SameOrNewer(seen.children[name], now.children[name]))
          || IsNewCandidate(name, seen.counter, now.counter))
  }

  ghost predicate SameOrNewer(seen: Node, now: Node) {
    now.version > seen.version || now == seen
  }

  ghost predicate IsNewCandidate(name: string, from: nat, counter: nat) {
    exists n: nat :: from <= n < counter && name == SequentialName(CANDIDATE_PREFIX, n)
  }

  lemma MultiShape(s: Election, leader: string, version: nat)
    ensures Multi(s, ENABLE_EMPTY).code == ZOK <==> s.Present? && s.children == map[]
    ensures Multi(s, ENABLE_EMPTY).state
         == if s.Present? && s.children == map[] then Present(map[PERSISTENT := Node(PERSISTENT_IDENTIFIER, 0)], 0) else s
    ensures Multi(s, ENABLE_EMPTY).code in {ZOK, ZNONODE, ZNOTEMPTY}
    ensures Multi(s, EnableBehind(leader, version)).code == ZOK
       <==> s.Present? && leader in s.children && s.children[leader].version == version && PERSISTENT !in s.children
    ensures Multi(s, EnableBehind(leader, version)).state
         == if Multi(s, EnableBehind(leader, version)).code == ZOK
            then Present(s.children[PERSISTENT := Node(PERSISTENT_IDENTIFIER, 0)], s.counter) else s
    ensures Multi(s, EnableBehind(leader, version)).code == ZBADVERSION
       <==> s.Present? && leader in s.children && s.children[leader].version != version
  {
    var a, b, c := RemovePath, CreatePath, CreateNode(PERSISTENT, PERSISTENT_IDENTIFIER);
    assert ENABLE_EMPTY == [a, b, c] && [a, b, c][1..] == [b, c] && [b, c][1..] == [c];
    var d := CheckNode(leader, version);
    assert EnableBehind(leader, version)[1..] == [c];
    ExecuteOne(s, c);
    ExecuteOne(Present(map[], 0), c);
    assert ExecuteAll(Absent, [b, c]) == ExecuteAll(Present(map[], 0), [c]);
  }

  lemma ExecuteOne(s: Election, r: Request)
    ensures ExecuteAll(s, [r]) == Execute(s, r)
  {
    var first := Execute(s, r);
    assert [r][1..] == [];
    assert ExecuteAll(first.state, []) == Response(ZOK, first.state);
  }

  lemma ActValid(s: Election, a: Action)
    requires Valid(s)
    ensures Valid(Act(s, a))
  {
    match a
    case CreateCandidate(identifier) =>
      if s.Present? && s.counter < SEQUENCE_LIMIT {
        forall name | name in s.children && name != PERSISTENT ensures IsCandidate(name, s.counter + 1) {
          assert IsCandidate(name, s.counter);
        }
        assert IsCandidate(SequentialName(CANDIDATE_PREFIX, s.counter), s.counter + 1);
      }
    case OtherEnablesEmpty => MultiShape(s, "", 0);
    case OtherEnablesBehind(leader, version) => MultiShape(s, leader, version);
    case _ =>
  }

  lemma ActSince(seen: Election, s: Election, a: Action)
    requires seen.Present? && Valid(s) && Since(seen, s) && a != Recreate
    ensures Since(seen, Act(s, a))
  {
    match a
    case CreateCandidate(identifier) =>
      if s.Present? && s.counter < SEQUENCE_LIMIT && PERSISTENT !in s.children {
        assert IsNewCandidate(SequentialName(CANDIDATE_PREFIX, s.counter), seen.counter, s.counter + 1);
        forall name | name in s.children && IsNewCandidate(name, seen.counter, s.counter)
          ensures IsNewCandidate(name, seen.counter, s.counter + 1)
        {
        }
      }
    case OtherEnablesEmpty => MultiShape(s, "", 0);
    case OtherEnablesBehind(leader, version) => MultiShape(s, leader, version);
    case _ =>
  }

  lemma {:induction false} ActAllSince(seen: Election, s: Election, actions: seq<Action>)
    requires seen.Present? && Valid(s) && Since(seen, s) && Recreate !in actions
    ensures Valid(ActAll(s, actions)) && Since(seen, ActAll(s, actions))
    decreases |actions|
  {
    hide Since, Valid, Act;
    if actions != [] {
      ActValid(s, actions[0]);
      ActSince(seen, s, actions[0]);
      ActAllSince(seen, Act(s, actions[0]), actions[1..]);
    }
  }

  lemma {:induction false} ActAllValid(s: Election, actions: seq<Action>)
    requires Valid(s)
    ensures Valid(ActAll(s, actions))
    decreases |actions|
  {
    hide Valid, Act;
    if actions != [] {
      ActValid(s, actions[0]);
      ActAllValid(Act(s, actions[0]), actions[1..]);
    }
  }

  lemma SinceItself(s: Election)
    requires s.Present?
    ensures Since(s, s)
  {
  }

  /** The smallest candidate stays the smallest for as long as it lives. */
  lemma SmallestStays(seen: Election, now: Election, name: string)
    requires Valid(seen) && Valid(now) && seen.Present? && now.Present? && Since(seen, now)
    requires PERSISTENT !in seen.children && PERSISTENT !in now.children
    requires IsSmallest(name, seen.children.Keys) && name in now.children
    ensures IsSmallest(name, now.children.Keys)
  {
    assert IsCandidate(name, seen.counter);
    var n: nat :| n < seen.counter && name == SequentialName(CANDIDATE_PREFIX, n);
    forall other | other in now.children && other != name ensures Less(name, other) {
      if other !in seen.children {
        assert IsNewCandidate(other, seen.counter, now.counter);
        var k: nat :| seen.counter <= k < now.counter && other == SequentialName(CANDIDATE_PREFIX, k);
        NamesMonotone(CANDIDATE_PREFIX, n, k);
      } else if !SameOrNewer(seen.children[other], now.children[other]) {
        assert IsNewCandidate(other, seen.counter, now.counter);
        var k: nat :| seen.counter <= k < now.counter && other == SequentialName(CANDIDATE_PREFIX, k);
        NamesMonotone(CANDIDATE_PREFIX, n, k);
      }
    }
  }

  /** A node that still has its version is still the same node. */
  lemma SameNode(seen: Election, now: Election, name: string)
    requires Valid(seen) && Valid(now) && seen.Present? && now.Present? && Since(seen, now)
    requires name in seen.children && name != PERSISTENT && PERSISTENT !in now.children
    requires name in now.children && now.children[name].version == seen.children[name].version
    ensures now.children[name] == seen.children[name]
  {
    assert IsCandidate(name, seen.counter);
    if IsNewCandidate(name, seen.counter, now.counter) {
      var n: nat :| n < seen.counter && name == SequentialName(CANDIDATE_PREFIX, n);
      var k: nat :| seen.counter <= k < now.counter && name == SequentialName(CANDIDATE_PREFIX, k);
      NamesInjective(CANDIDATE_PREFIX, n, k);
    }
  }

  // ---- the client ----

  /** `schedule` says what others do before each request; `enabled` collects the elections that this client ended. */
  class Keeper {
    var state: Election
    var clock: nat
    const schedule: nat -> seq<Action>
    ghost var enabled: seq<Election>

    constructor (state: Election, schedule: nat -> seq<Action>)
      ensures this.state == state && this.schedule == schedule && clock == 0 && enabled == []
    {
      this.state, this.schedule, clock, enabled := state, schedule, 0, [];
    }

    method Interleave()
      modifies this
      ensures state == ActAll(old(state), schedule(old(clock))) && clock == old(clock) + 1 && enabled == old(enabled)
    {
      state := ActAll(state, schedule(clock));
      clock := clock + 1;
    }

    method TryGetChildren() returns (children: Option<set<string>>)
      modifies this
      ensures state == ActAll(old(state), schedule(old(clock))) && clock == old(clock) + 1 && enabled == old(enabled)
      ensures children == if state.Absent? then None else Some(state.children.Keys)
    {
      Interleave();
      children := if state.Absent? then None else Some(state.children.Keys);
    }

    method TryGet(name: string) returns (node: Option<Node>)
      modifies this
      ensures state == ActAll(old(state), schedule(old(clock))) && clock == old(clock) + 1 && enabled == old(enabled)
      ensures node == if state.Present? && name in state.children then Some(state.children[name]) else None
    {
      Interleave();
      node := if state.Present? && name in state.children then Some(state.children[name]) else None;
    }

    method TryMulti(requests: seq<Request>) returns (code: Code)
      modifies this
      ensures
        var before := ActAll(old(state), schedule(old(clock)));
        && clock == old(clock) + 1
        && code == Multi(before, requests).code && state == Multi(before, requests).state
        && enabled == if code == ZOK then old(enabled) + [before] else old(enabled)
    {
      Interleave();
      var r := Multi(state, requests);
      if r.code == ZOK {
        enabled := enabled + [state];
      }
      code, state := r.code, r.state;
    }
  }

  datatype Outcome = Returned | TooOldLeader(name: string, identifier: string) | KeeperError(code: Code) | TriesExhausted

  /** The first name after sorting. */
  method FirstSorted(names: set<string>) returns (first: string)
    requires names != {}
    ensures IsSmallest(first, names)
  {
    first :| first in names;
    var left := names - {first};
    while left != {}
      invariant first in names && left <= names && first !in left
      invariant forall other :: other in names && other !in left && other != first ==> Less(first, other)
    {
      var name :| name in left;
      LessTotal(name, first);
      if Less(name, first) {
        forall other | other in names && other !in left && other != first ensures Less(name, other) {
          LessTransitive(name, first, other);
        }
        first := name;
      }
      left := left - {name};
    }
  }

  /** What ending the election does to its node. */
  function Enabled(s: Election): Election
    requires s.Present?
  {
    Present(s.children[PERSISTENT := Node(PERSISTENT_IDENTIFIER, 0)], if s.children == map[] then 0 else s.counter)
  }

  /** What others make of an election before the requests from number `first` up to, and without, number `end`. */
  function Others(s: Election, schedule: nat -> seq<Action>, first: nat, end: nat): Election
    decreases end
  {
    if end <= first then s else ActAll(Others(s, schedule, first, end - 1), schedule(end - 1))
  }

  lemma OthersNext(s: Election, schedule: nat -> seq<Action>, first: nat, end: nat)
    requires first <= end
    ensures Others(s, schedule, first, end + 1) == ActAll(Others(s, schedule, first, end), schedule(end))
    ensures Others(s, schedule, first, first) == s
  {
  }

  /** Before how many of these requests others act. */
  function Disturbances(schedule: nat -> seq<Action>, first: nat, end: nat): nat
    decreases end
  {
    if end <= first then 0 else Disturbances(schedule, first, end - 1) + if schedule(end - 1) != [] then 1 else 0
  }

  lemma DisturbancesNext(schedule: nat -> seq<Action>, first: nat, end: nat)
    requires first <= end
    ensures Disturbances(schedule, first, end + 1) == Disturbances(schedule, first, end) + if schedule(end) != [] then 1 else 0
  {
  }

  /** The requests of one try. */
  lemma TryWindow(s: Election, schedule: nat -> seq<Action>, now: nat)
    ensures
      var b, c := Others(s, schedule, now, now + 1), Others(s, schedule, now, now + 2);
      && b == ActAll(s, schedule(now)) && c == ActAll(b, schedule(now + 1))
      && Others(s, schedule, now, now + 3) == ActAll(c, schedule(now + 2))
    ensures
      var k := Disturbances(schedule, now, now + 2);
      && k >= (if schedule(now + 1) != [] then 1 else 0)
      && Disturbances(schedule, now, now + 3) == k + if schedule(now + 2) != [] then 1 else 0
  {
    OthersNext(s, schedule, now, now);
    OthersNext(s, schedule, now, now + 1);
    OthersNext(s, schedule, now, now + 2);
    DisturbancesNext(schedule, now, now);
    DisturbancesNext(schedule, now, now + 1);
    DisturbancesNext(schedule, now, now + 2);
  }

  lemma {:induction false} OthersCompose(s: Election, schedule: nat -> seq<Action>, first: nat, now: nat, end: nat)
    requires first <= now <= end
    ensures Others(Others(s, schedule, first, now), schedule, now, end) == Others(s, schedule, first, end)
    ensures Disturbances(schedule, first, end) == Disturbances(schedule, first, now) + Disturbances(schedule, now, end)
    decreases end
  {
    if now < end {
      OthersCompose(s, schedule, first, now, end - 1);
    }
  }

  lemma MultiRejects(s: Election, requests: seq<Request>)
    ensures Multi(s, requests).code != ZOK ==> Multi(s, requests).state == s
  {
  }

  /** This client changed nothing but by ending the election. */
  ghost predicate OnlyOthersActed(
    start: Election, before: seq<Election>, after: seq<Election>, state: Election, schedule: nat -> seq<Action>, first: nat, end: nat)
  {
    var met := Others(start, schedule, first, end);
    if after == before then state == met else after == before + [met]
  }

  /** The table was created anew between the listing of the last try and its last request. */
  ghost predicate RecreatedInWindow(schedule: nat -> seq<Action>, clock: nat) {
    clock >= 2 && (Recreate in schedule(clock - 2) || Recreate in schedule(clock - 1))
  }

  /** What the tries may do: end the election once, at a moment when its leader allowed others. */
  ghost predicate EndedFairly(before: seq<Election>, after: seq<Election>, state: Election, schedule: nat -> seq<Action>, clock: nat) {
    || after == before
    || exists s ::
         && after == before + [s] && s.Present? && PERSISTENT !in s.children && state == Enabled(s)
         && (LeaderAllowsOthers(s) || RecreatedInWindow(schedule, clock))
  }

  lemma ActNothing(s: Election)
    ensures ActAll(s, []) == s
  {
  }

  lemma SmallestIsThere(name: string, names: set<string>)
    requires IsSmallest(name, names)
    ensures name in names
  {
  }

  /** The persistent node sorts before all candidates. */
  lemma NoPersistent(s: Election, front: string)
    requires Valid(s) && s.Present? && IsSmallest(front, s.children.Keys) && front != PERSISTENT
    ensures PERSISTENT !in s.children
  {
    if PERSISTENT in s.children {
      PersistentIsSmallest(front, s.counter);
      LessTotal(PERSISTENT, front);
    }
  }

  lemma EmptyEnabled(before: Election)
    requires Valid(before)
    ensures
      var r := Multi(before, ENABLE_EMPTY);
      && Valid(r.state) && r.code in {ZOK, ZNONODE, ZNOTEMPTY}
      && (r.code == ZOK ==> before.Present? && before.children == map[] && LeaderAllowsOthers(before) && r.state == Enabled(before))
      && (before.Present? && before.children == map[] ==> r.code == ZOK)
  {
    MultiShape(before, "", 0);
  }

  lemma EnabledShape(before: Election, front: string, version: nat)
    requires Valid(before)
    ensures
      var r := Multi(before, EnableBehind(front, version));
      && Valid(r.state)
      && (r.code == ZOK ==> before.Present? && PERSISTENT !in before.children && r.state == Enabled(before))
      && (before.Present? && front in before.children && before.children[front].version == version && PERSISTENT !in before.children
          ==> r.code == ZOK)
      && (r.code == ZBADVERSION ==> before.Present? && front in before.children && before.children[front].version != version)
  {
    MultiShape(before, front, version);
  }

  /** Without a re-creation since the listing, the request behind the node that was read ends the election fairly. */
  lemma EnabledFairly(seen: Election, read: Election, before: Election, front: string)
    requires Valid(seen) && Valid(read) && Valid(before) && seen.Present? && read.Present?
    requires Since(seen, before) && Since(read, before)
    requires PERSISTENT !in seen.children && IsSmallest(front, seen.children.Keys) && front != PERSISTENT
    requires front in read.children && SupportsMultipleLeaders(read.children[front].identifier)
    ensures Multi(before, EnableBehind(front, read.children[front].version)).code == ZOK ==> LeaderAllowsOthers(before)
  {
    MultiShape(before, front, read.children[front].version);
    if Multi(before, EnableBehind(front, read.children[front].version)).code == ZOK {
      SmallestStays(seen, before, front);
      SameNode(read, before, front);
      forall name | IsSmallest(name, before.children.Keys) ensures name == front {
        LessTotal(name, front);
      }
    }
  }

  /** The same for the actions that come before the two last requests of a try. */
  lemma WindowIsFair(seen: Election, read: Election, front: string, first: seq<Action>, second: seq<Action>)
    requires Valid(seen) && seen.Present? && read.Present? && read == ActAll(seen, first)
    requires PERSISTENT !in seen.children && IsSmallest(front, seen.children.Keys) && front != PERSISTENT
    requires front in read.children && SupportsMultipleLeaders(read.children[front].identifier)
    requires Recreate !in first && Recreate !in second
    ensures
      var before := ActAll(read, second);
      Multi(before, EnableBehind(front, read.children[front].version)).code == ZOK ==> LeaderAllowsOthers(before)
  {
    hide Since, Act, SupportsMultipleLeaders;
    SinceItself(seen);
    ActAllSince(seen, seen, first);
    SinceItself(read);
    ActAllSince(seen, read, second);
    ActAllSince(read, read, second);
    EnabledFairly(seen, read, ActAll(read, second), front);
  }

  /** A leader that was read is the smallest candidate, unless the table was created anew since the listing. */
  lemma ReadIsSmallest(seen: Election, front: string, coming: seq<Action>)
    requires Valid(seen) && seen.Present? && Recreate !in coming
    requires PERSISTENT !in seen.children && IsSmallest(front, seen.children.Keys)
    ensures
      var read := ActAll(seen, coming);
      read.Present? && front in read.children && PERSISTENT !in read.children ==> IsSmallest(front, read.children.Keys)
  {
    SinceItself(seen);
    ActAllSince(seen, seen, coming);
    var read := ActAll(seen, coming);
    if read.Present? && front in read.children && PERSISTENT !in read.children {
      SmallestStays(seen, read, front);
    }
  }

  /** The first in the listing, which is a candidate, is there when it is read. */
  ghost predicate FirstWasRead(listed: Election, read: Election, name: string) {
    && listed.Present? && PERSISTENT !in listed.children && IsSmallest(name, listed.children.Keys)
    && read.Present? && name in read.children
  }

  /** It was written between the reading and the request. */
  ghost predicate Overwritten(listed: Election, read: Election, met: Election) {
    exists name ::
      && FirstWasRead(listed, read, name) && SupportsMultipleLeaders(read.children[name].identifier)
      && met.Present? && name in met.children && met.children[name].version != read.children[name].version
  }

  /** What an outcome says about the states that the last requests met. */
  ghost predicate Justified(outcome: Outcome, start: Election, state: Election, schedule: nat -> seq<Action>, first: nat, clock: nat) {
    && (outcome.Returned? ==> state.Absent? || PERSISTENT in state.children)
    && (outcome.TooOldLeader? ==>
          && clock >= first + 2
          && FirstWasRead(Others(start, schedule, first, clock - 1), state, outcome.name)
          && state.children[outcome.name].identifier == outcome.identifier && !SupportsMultipleLeaders(outcome.identifier)
          && (PERSISTENT in state.children || IsSmallest(outcome.name, state.children.Keys) || Recreate in schedule(clock - 1)))
    && (outcome.KeeperError? ==>
          && outcome.code == ZBADVERSION && clock >= first + 3
          && Overwritten(Others(start, schedule, first, clock - 2), Others(start, schedule, first, clock - 1), state))
  }

  lemma JustifiedSince(outcome: Outcome, start: Election, state: Election, schedule: nat -> seq<Action>, first: nat, now: nat, clock: nat)
    requires first <= now && Justified(outcome, Others(start, schedule, first, now), state, schedule, now, clock)
    ensures Justified(outcome, start, state, schedule, first, clock)
  {
    hide FirstWasRead, Overwritten, Others, SupportsMultipleLeaders, IsSmallest;
    if outcome.TooOldLeader? {
      OthersCompose(start, schedule, first, now, clock - 1);
    }
    if outcome.KeeperError? {
      OthersCompose(start, schedule, first, now, clock - 2);
      OthersCompose(start, schedule, first, now, clock - 1);
    }
  }

  /** One pass of the loop: the outcome, or nothing where it goes on. */
  method Attempt(keeper: Keeper) returns (outcome: Option<Outcome>)
    requires Valid(keeper.state)
    modifies keeper
    ensures Valid(keeper.state) && keeper.clock > old(keeper.clock)
    ensures EndedFairly(old(keeper.enabled), keeper.enabled, keeper.state, keeper.schedule, keeper.clock)
    ensures OnlyOthersActed(old(keeper.state), old(keeper.enabled), keeper.enabled, keeper.state, keeper.schedule, old(keeper.clock), keeper.clock)
    ensures keeper.enabled != old(keeper.enabled) ==> outcome == Some(Returned)
    ensures outcome.Some? ==>
              && !outcome.value.TriesExhausted?
              && Justified(outcome.value, old(keeper.state), keeper.state, keeper.schedule, old(keeper.clock), keeper.clock)
    ensures outcome.None? || outcome.value.KeeperError? ==> Disturbances(keeper.schedule, old(keeper.clock), keeper.clock) >= 1
  {
    hide Others, Disturbances, ActAll, LeaderAllowsOthers, IsSmallest, Valid, Since, SupportsMultipleLeaders, Multi;
    TryWindow(keeper.state, keeper.schedule, keeper.clock);
    ActNothing(keeper.state);
    ActAllValid(keeper.state, keeper.schedule(keeper.clock));
    var potentialLeaders := keeper.TryGetChildren();
    if potentialLeaders.None? {
      return Some(Returned);
    }
    ghost var seen := keeper.state;
    ghost var first := keeper.schedule(keeper.clock);
    ActNothing(seen);
    ActAllValid(seen, first);
    var code: Code;
    var front := "";
    ghost var read := seen;
    if potentialLeaders.value == {} {
      EmptyEnabled(ActAll(seen, first));
      MultiRejects(ActAll(seen, first), ENABLE_EMPTY);
      code := keeper.TryMulti(ENABLE_EMPTY);
    } else {
      front := FirstSorted(potentialLeaders.value);
      SmallestIsThere(front, potentialLeaders.value);
      if front == PERSISTENT {
        return Some(Returned);
      }
      NoPersistent(seen, front);
      var leader := keeper.TryGet(front);
      if leader.None? {
        return None;
      }
      if !SupportsMultipleLeaders(leader.value.identifier) {
        if Recreate !in first {
          ReadIsSmallest(seen, front, first);
        }
        return Some(TooOldLeader(front, leader.value.identifier));
      }
      read := keeper.state;
      ghost var second := keeper.schedule(keeper.clock);
      ActNothing(read);
      ActAllValid(read, second);
      EnabledShape(ActAll(read, second), front, leader.value.version);
      if Recreate !in first && Recreate !in second {
        WindowIsFair(seen, read, front, first, second);
      }
      MultiRejects(ActAll(read, second), EnableBehind(front, leader.value.version));
      code := keeper.TryMulti(EnableBehind(front, leader.value.version));
    }
    if code == ZOK {
      return Some(Returned);
    }
    if !(code == ZNOTEMPTY || code == ZNODEEXISTS || code == ZNONODE) {
      assert FirstWasRead(seen, read, front);
      assert Overwritten(seen, read, keeper.state);
      return Some(KeeperError(code));
    }
    return None;
  }

  /** In every schedule: only a table that is created anew between the listing and the request of one try is dangerous. */
  method CheckNoOldLeaders(keeper: Keeper) returns (outcome: Outcome)
    requires Valid(keeper.state)
    modifies keeper
    ensures Valid(keeper.state)
    ensures EndedFairly(old(keeper.enabled), keeper.enabled, keeper.state, keeper.schedule, keeper.clock)
    ensures OnlyOthersActed(old(keeper.state), old(keeper.enabled), keeper.enabled, keeper.state, keeper.schedule, old(keeper.clock), keeper.clock)
    ensures keeper.enabled != old(keeper.enabled) ==> outcome.Returned?
    ensures Justified(outcome, old(keeper.state), keeper.state, keeper.schedule, old(keeper.clock), keeper.clock)
    ensures outcome.TriesExhausted? ==> Disturbances(keeper.schedule, old(keeper.clock), keeper.clock) >= 1000
    ensures outcome.KeeperError? ==> Disturbances(keeper.schedule, old(keeper.clock), keeper.clock) >= 1
    ensures (forall t :: keeper.schedule(t) == []) ==> outcome.Returned? || outcome.TooOldLeader?
  {
    hide Others, Disturbances, IsSmallest, Valid, SupportsMultipleLeaders, EndedFairly;
    ghost var start, schedule, begin := keeper.state, keeper.schedule, keeper.clock;
    OthersNext(start, schedule, begin, begin);
    var numTries := MAX_TRIES;
    while numTries > 0
      invariant Valid(keeper.state) && begin <= keeper.clock
      invariant keeper.enabled == old(keeper.enabled)
      invariant numTries <= MAX_TRIES
      invariant keeper.state == Others(start, schedule, begin, keeper.clock)
      invariant Disturbances(schedule, begin, keeper.clock) >= MAX_TRIES - numTries
    {
      ghost var now := keeper.clock;
      var decided := Attempt(keeper);
      OthersCompose(start, schedule, begin, now, keeper.clock);
      if decided.Some? {
        JustifiedSince(decided.value, start, keeper.state, schedule, begin, now, keeper.clock);
        QuietIsUndisturbed(schedule, begin, keeper.clock);
        return decided.value;
      }
      numTries := numTries - 1;
    }
    NothingEnded(keeper.enabled, keeper.state, schedule, keeper.clock);
    QuietIsUndisturbed(schedule, begin, keeper.clock);
    return TriesExhausted;
  }

  lemma NothingEnded(enabled: seq<Election>, state: Election, schedule: nat -> seq<Action>, clock: nat)
    ensures EndedFairly(enabled, enabled, state, schedule, clock)
  {
  }

  lemma {:induction false} QuietIsUndisturbed(schedule: nat -> seq<Action>, first: nat, end: nat)
    ensures (forall t :: schedule(t) == []) ==> Disturbances(schedule, first, end) == 0
    decreases end
  {
    if first < end {
      QuietIsUndisturbed(schedule, first, end - 1);
    }
  }

  // ---- the one danger ----

  const OLD_REPLICA := "old replica"

  /** Others do this after the leader was read: then the request succeeds although the smallest candidate allows nobody. */
  ghost predicate Fools(read: Election, front: string, actions: seq<Action>)
    requires read.Present? && front in read.children
  {
    var before := ActAll(read, actions);
    Multi(before, EnableBehind(front, read.children[front].version)).code == ZOK && !LeaderAllowsOthers(before)
  }

  /**
   * For every election and every leader in it that allows others: without a re-creation nothing that others do fools the
   * client, and with one they can fool it. A table created anew under the same path counts its candidates anew, until one
   * of an old version has the name, and after as many writes the version, of the node that was read.
   */
  lemma OnlyRecreationFools(read: Election, front: string)
    requires Valid(read) && read.Present? && PERSISTENT !in read.children
    requires IsSmallest(front, read.children.Keys) && SupportsMultipleLeaders(read.children[front].identifier)
    ensures forall actions :: Fools(read, front, actions) ==> Recreate in actions
    ensures exists actions :: Fools(read, front, actions)
  {
    hide SupportsMultipleLeaders, IsSmallest, Valid, LeaderAllowsOthers, Multi;
    SmallestIsThere(front, read.children.Keys);
    forall actions | Recreate !in actions ensures !Fools(read, front, actions) {
      ActNothing(read);
      WindowIsFair(read, read, front, [], actions);
    }
    FoolingActions(read, front);
  }

  function Creations(k: nat): seq<Action> {
    if k == 0 then [] else [CreateCandidate(OLD_REPLICA)] + Creations(k - 1)
  }

  function Writes(name: string, k: nat): seq<Action> {
    if k == 0 then [] else [SetIdentifier(name, OLD_REPLICA)] + Writes(name, k - 1)
  }

  /** Exactly the candidates below `k`, all of an old version. */
  ghost predicate OldReplicas(s: Election, k: nat) {
    && s.Present? && s.counter == k
    && (forall name :: name in s.children ==> IsCandidate(name, k) && s.children[name].identifier == OLD_REPLICA)
    && (forall i: nat :: i < k ==> SequentialName(CANDIDATE_PREFIX, i) in s.children)
  }

  lemma {:induction false} CreationsShape(s: Election, from: nat, k: nat)
    requires OldReplicas(s, from) && from + k <= SEQUENCE_LIMIT
    requires forall name :: name in s.children ==> s.children[name].version == 0
    ensures
      var t := ActAll(s, Creations(k));
      OldReplicas(t, from + k) && forall name :: name in t.children ==> t.children[name].version == 0
    decreases k
  {
    hide Act, OldReplicas;
    if k > 0 {
      OneMoreReplica(s, from);
      CreationsShape(Act(s, CreateCandidate(OLD_REPLICA)), from + 1, k - 1);
      assert Creations(k)[1..] == Creations(k - 1);
    }
  }

  lemma OneMoreReplica(s: Election, from: nat)
    requires OldReplicas(s, from) && from < SEQUENCE_LIMIT
    requires forall name :: name in s.children ==> s.children[name].version == 0
    ensures
      var t := Act(s, CreateCandidate(OLD_REPLICA));
      OldReplicas(t, from + 1) && forall name :: name in t.children ==> t.children[name].version == 0
  {
    assert IsCandidate(SequentialName(CANDIDATE_PREFIX, from), from + 1);
    forall name | name in s.children ensures IsCandidate(name, from + 1) {
      assert IsCandidate(name, from);
    }
  }

  lemma {:induction false} WritesShape(s: Election, name: string, n: nat, k: nat)
    requires OldReplicas(s, n) && name in s.children
    ensures
      var t := ActAll(s, Writes(name, k));
      OldReplicas(t, n) && name in t.children && t.children[name].version == s.children[name].version + k
    decreases k
  {
    if k > 0 {
      var t := Act(s, SetIdentifier(name, OLD_REPLICA));
      WritesShape(t, name, n, k - 1);
      assert Writes(name, k)[1..] == Writes(name, k - 1);
    }
  }

  lemma {:induction false} ActAllConcat(s: Election, a: seq<Action>, b: seq<Action>)
    ensures ActAll(s, a + b) == ActAll(ActAll(s, a), b)
    decreases |a|
  {
    hide Act;
    if a == [] {
      assert a + b == b;
    } else {
      assert (a + b)[1..] == a[1..] + b;
      ActAllConcat(Act(s, a[0]), a[1..], b);
    }
  }

  lemma OldReplicasAllowNobody(s: Election, k: nat)
    requires OldReplicas(s, k) && 0 < k <= SEQUENCE_LIMIT
    ensures PERSISTENT !in s.children && !LeaderAllowsOthers(s)
  {
    var lowest := SequentialName(CANDIDATE_PREFIX, 0);
    forall name | name in s.children ensures name != PERSISTENT && (name == lowest || Less(lowest, name)) {
      PersistentIsSmallest(name, k);
      var n: nat :| n < k && name == SequentialName(CANDIDATE_PREFIX, n);
      if n > 0 {
        NamesMonotone(CANDIDATE_PREFIX, 0, n);
      }
    }
    assert IsSmallest(lowest, s.children.Keys);
    assert !SupportsMultipleLeaders(OLD_REPLICA);
  }

  lemma StartAnew(read: Election)
    ensures ActAll(read, [DropTable, Recreate]) == Present(map[], 0)
  {
    assert [DropTable, Recreate][1..] == [Recreate] && [Recreate][1..] == [];
    assert ActAll(Absent, [Recreate]) == ActAll(Present(map[], 0), []) == Present(map[], 0);
  }

  lemma FoolingActions(read: Election, front: string)
    requires Valid(read) && read.Present? && front in read.children && front != PERSISTENT
    ensures exists actions :: Fools(read, front, actions)
  {
    assert IsCandidate(front, read.counter);
    var n: nat :| n < read.counter && front == SequentialName(CANDIDATE_PREFIX, n);
    var anew, rest := [DropTable, Recreate], Creations(n + 1) + Writes(front, read.children[front].version);
    StartAnew(read);
    ActAllConcat(read, anew, rest);
    TakesName(n, front, read.children[front].version);
    assert Fools(read, front, anew + rest);
  }

  /** From an election without candidates, replicas of an old version get to any name and version. */
  lemma TakesName(n: nat, front: string, version: nat)
    requires n < SEQUENCE_LIMIT && front == SequentialName(CANDIDATE_PREFIX, n)
    ensures
      var before := ActAll(Present(map[], 0), Creations(n + 1) + Writes(front, version));
      Multi(before, EnableBehind(front, version)).code == ZOK && !LeaderAllowsOthers(before)
  {
    hide LeaderAllowsOthers, Multi, ActAll, OldReplicas, Creations, Writes, SequentialName, EnableBehind;
    var start := Present(map[], 0);
    NoReplicas();
    CreationsShape(start, 0, n + 1);
    var created := ActAll(start, Creations(n + 1));
    ReplicaIsThere(created, n + 1, n);
    WritesShape(created, front, n + 1, version);
    ActAllConcat(start, Creations(n + 1), Writes(front, version));
    var before := ActAll(created, Writes(front, version));
    OldReplicasAllowNobody(before, n + 1);
    MultiShape(before, front, version);
  }

  lemma NoReplicas()
    ensures OldReplicas(Present(map[], 0), 0)
  {
  }

  lemma ReplicaIsThere(s: Election, k: nat, n: nat)
    requires OldReplicas(s, k) && n < k
    ensures s.Present? && SequentialName(CANDIDATE_PREFIX, n) in s.children
  {
  }

  /**
   * A table that is dropped and created again under the same path starts to count its candidates anew: then a replica
   * of an old version can take the name and the version of the node that was read, and the request succeeds beside it.
   */
  lemma RecreatedTableExample()
    ensures
      var name := SequentialName(CANDIDATE_PREFIX, 0);
      var read := Present(map[name := Node("replica (multiple leaders Ok)", 0)], 1);
      var before := ActAll(read, [DropTable, Recreate, CreateCandidate("old replica")]);
      && Valid(read) && IsSmallest(name, read.children.Keys) && SupportsMultipleLeaders(read.children[name].identifier)
      && Multi(before, EnableBehind(name, 0)).code == ZOK && !LeaderAllowsOthers(before)
  {
    var name := SequentialName(CANDIDATE_PREFIX, 0);
    var read := Present(map[name := Node("replica (multiple leaders Ok)", 0)], 1);
    var a, b, c := DropTable, Recreate, CreateCandidate("old replica");
    assert [a, b, c][1..] == [b, c] && [b, c][1..] == [c] && [c][1..] == [];
    var before := Present(map[name := Node("old replica", 0)], 1);
    assert ActAll(read, [a, b, c]) == ActAll(Absent, [b, c]) == ActAll(Present(map[], 0), [c]) == before by {
      assert Act(Present(map[], 0), c) == before;
      assert ActAll(before, []) == before;
    }
    assert IsCandidate(name, 1);
    PersistentIsSmallest(name, 1);
    MultiShape(before, name, 0);
    assert "replica (multiple leaders Ok)"[|"replica (multiple leaders Ok)"| - |SUFFIX|..] == SUFFIX;
    assert !SupportsMultipleLeaders("old replica");
    assert IsSmallest(name, before.children.Keys);
  }
}
