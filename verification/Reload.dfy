/** The reload protocol: a loader swaps four atomic pointers one after another while requests read
    them. Steps of the loader and of any number of requests interleave freely. */
module Reload {
  import opened Text
  import opened Permissions
  import opened Dispatch

  /** An atomic pointer: what it points to, and the load that stored it. */
  datatype Cell<+T> = Cell(value: T, gen: nat)

  /** How many of the four stores of the latest load are done. */
  datatype Loader = Idle | Storing(stores: nat)

  /** A request: arrived when load `installed` was complete; then it has read its table from load
      gen; then it is decided. A request that reads no table is decided on its first step. */
  datatype Progress =
    | Arrived(req: Request, installed: nat)
    | HasRead(req: Request, installed: nat, auth: Auth, query: Query, snapshot: Snapshot, gen: nat)
    | Decided(req: Request, installed: nat, decision: Decision, read: Option<(Auth, nat)>, started: nat)

  datatype State = State(
    loads: seq<Tables>,  // the tables of the loads that have begun to store, oldest first
    noauth: Cell<Option<Profile>>,
    oauth2: Cell<OTable>,
    mtls: Cell<Table>,
    nkey: Cell<Table>,
    loader: Loader,
    requests: map<nat, Progress>)

  /** The service: fixed authenticators, oracles and environment. */
  datatype Service = Service(auths: seq<Auth>, oracles: Oracles, expand: Expand)

  datatype Action =
    | BeginLoad(config: Config, tables: Tables)
    | FailLoad
    | Store
    | Arrive(id: nat, req: Request)
    | Step(id: nat)

  /** After the load that the constructor performs. */
  function Initial(t: Tables): State {
    State([t], Cell(t.noauth, 0), Cell(t.oauth2, 0), Cell(t.mtls, 0), Cell(t.nkey, 0), Idle, map[])
  }

  function Latest(s: State): nat
    requires s.loads != []
  {
    |s.loads| - 1
  }

  /** The pointer that a method's query loads. */
  function GenOf(s: State, a: Auth): nat {
    match a
    case OAuth2 => s.oauth2.gen
    case MTLS => s.mtls.gen
    case NKey => s.nkey.gen
    case NoAuth => s.noauth.gen
  }

  function Pointers(s: State): Tables {
    Tables(s.oauth2.value, s.mtls.value, s.nkey.value, s.noauth.value)
  }

  /** The next store: noauth, then oauth2, then mtls, then nkey. */
  function DoStore(s: State): State
    requires s.loader.Storing? && s.loads != []
  {
    var t, g, k := s.loads[Latest(s)], Latest(s), s.loader.stores;
    if k == 0 then s.(noauth := Cell(t.noauth, g), loader := Storing(1))
    else if k == 1 then s.(oauth2 := Cell(t.oauth2, g), loader := Storing(2))
    else if k == 2 then s.(mtls := Cell(t.mtls, g), loader := Storing(3))
    else s.(nkey := Cell(t.nkey, g), loader := Idle)
  }

  /** One step of a request: choose the authenticator and load its pointer, or decide. */
  function DoStep(sv: Service, s: State, p: Progress): Progress {
    match p
    case Arrived(req, installed) =>
      (match FirstMatching(sv.auths, req)
       case None => Decided(req, installed, NoAuthenticator, None, s.noauth.gen)
       case Some(a) =>
         var q := QueryOf(a, req, sv.oracles);
         if q.Fails? then Decided(req, installed, Rejected(a), None, s.noauth.gen)
         else HasRead(req, installed, a, q, SnapshotOf(q, Pointers(s)), GenOf(s, a)))
    case HasRead(req, installed, a, q, snapshot, g) =>
      Decided(req, installed, DecisionOf(a, AnswerOf(q, snapshot, req, sv.oracles)), Some((a, g)), s.noauth.gen)
    case Decided(_, _, _, _, _) => p
  }

  /** The state after an action, if the action is possible: loads do not overlap, only an
      acceptable configuration is stored, a load that returns an error stores nothing. */
  function Apply(sv: Service, s: State, a: Action): Option<State> {
    match a
    case BeginLoad(c, t) =>
      if s.loader.Idle? && IsAcceptable(sv.expand, c) && IsTablesOf(sv.expand, c, t)
      then Some(s.(loads := s.loads + [t], loader := Storing(0))) else None
    case FailLoad => if s.loader.Idle? then Some(s) else None
    case Store => if s.loader.Storing? && s.loads != [] then Some(DoStore(s)) else None
    case Arrive(id, req) =>
      if id in s.requests then None else Some(s.(requests := s.requests[id := Arrived(req, s.nkey.gen)]))
    case Step(id) =>
      if id !in s.requests || s.requests[id].Decided? then None
      else Some(s.(requests := s.requests[id := DoStep(sv, s, s.requests[id])]))
  }

  function Run(sv: Service, s: State, actions: seq<Action>): Option<State>
    decreases |actions|
  {
    if actions == [] then Some(s)
    else match Apply(sv, s, actions[0])
      case None => None
      case Some(next) => Run(sv, next, actions[1..])
  }

  // ---------------------------------------------------------------- the invariant

  predicate IsStored<T(==)>(s: State, c: Cell<T>, pick: Tables -> T) {
    c.gen < |s.loads| && c.value == pick(s.loads[c.gen])
  }

  /** Every pointer holds its part of the load it names. */
  predicate CellsStored(s: State) {
    && IsStored(s, s.noauth, (t: Tables) => t.noauth) && IsStored(s, s.oauth2, (t: Tables) => t.oauth2)
    && IsStored(s, s.mtls, (t: Tables) => t.mtls) && IsStored(s, s.nkey, (t: Tables) => t.nkey)
  }

  /** The generation of a pointer that is stored k-th. */
  function Expected(s: State, k: nat): int {
    if s.loader.Storing? && s.loader.stores <= k then |s.loads| - 2 else |s.loads| - 1
  }

  predicate GensExpected(s: State) {
    && s.loads != [] && (s.loader.Storing? ==> s.loader.stores <= 3 && |s.loads| >= 2)
    && s.noauth.gen == Expected(s, 0) && s.oauth2.gen == Expected(s, 1)
    && s.mtls.gen == Expected(s, 2) && s.nkey.gen == Expected(s, 3)
  }

  /** Load g was complete or under way during the request's lifetime. */
  predicate Timely(s: State, installed: nat, g: nat, started: nat) {
    installed <= g <= started <= s.noauth.gen && g < |s.loads|
  }

  /** The load whose table a decided request has read; the one complete on arrival if it read none. */
  function LoadUsed(p: Progress): nat
    requires p.Decided?
  {
    if p.read.Some? then p.read.value.1 else p.installed
  }

  predicate RequestOk(sv: Service, s: State, p: Progress) {
    match p
    case Arrived(_, installed) => installed <= s.nkey.gen
    case HasRead(req, installed, a, q, snapshot, g) =>
      && Timely(s, installed, g, s.noauth.gen) && g <= GenOf(s, a) && FirstMatching(sv.auths, req) == Some(a)
      && q == QueryOf(a, req, sv.oracles) && !q.Fails? && snapshot == SnapshotOf(q, s.loads[g])
    case Decided(req, installed, d, read, started) =>
      && Timely(s, installed, LoadUsed(p), started)
      && d == Decide(sv.auths, req, sv.oracles, s.loads[LoadUsed(p)])
      && (read.Some? ==> read.value.1 <= GenOf(s, read.value.0) && FirstMatching(sv.auths, req) == Some(read.value.0))
  }

  /** Tables of some acceptable configuration. */
  ghost predicate Comes(sv: Service, c: Config, t: Tables) {
    IsAcceptable(sv.expand, c) && IsTablesOf(sv.expand, c, t)
  }

  ghost predicate IsAccepted(sv: Service, t: Tables) {
    exists c :: Comes(sv, c, t)
  }

  ghost predicate LoadsAccepted(sv: Service, s: State) {
    forall g :: 0 <= g < |s.loads| ==> IsAccepted(sv, s.loads[g])
  }

  ghost predicate Inv(sv: Service, s: State) {
    && GensExpected(s) && CellsStored(s) && LoadsAccepted(sv, s)
    && forall id :: id in s.requests ==> RequestOk(sv, s, s.requests[id])
  }

  /** Loads are only added, and every pointer only moves forward. */
  predicate MovesForward(s: State, s': State) {
    && s.loads <= s'.loads
    && s.noauth.gen <= s'.noauth.gen && s.oauth2.gen <= s'.oauth2.gen
    && s.mtls.gen <= s'.mtls.gen && s.nkey.gen <= s'.nkey.gen
  }

  lemma InitialInv(sv: Service, t: Tables)
    requires IsAccepted(sv, t)
    ensures Inv(sv, Initial(t))
  {
    hide IsAccepted;
  }

  lemma StableRequest(sv: Service, s: State, s': State, p: Progress)
    requires MovesForward(s, s') && RequestOk(sv, s, p)
    ensures RequestOk(sv, s', p)
  {
    hide Decide, QueryOf, SnapshotOf, FirstMatching;
  }

  /** The table a query reads now is the one of the load its pointer names. */
  lemma SnapshotIsStored(s: State, a: Auth, req: Request, oracles: Oracles)
    requires CellsStored(s) && !QueryOf(a, req, oracles).Fails?
    ensures GenOf(s, a) < |s.loads|
    ensures SnapshotOf(QueryOf(a, req, oracles), Pointers(s))
            == SnapshotOf(QueryOf(a, req, oracles), s.loads[GenOf(s, a)])
  {
  }

  lemma GensOrdered(s: State)
    requires GensExpected(s)
    ensures s.noauth.gen >= s.oauth2.gen >= s.mtls.gen >= s.nkey.gen >= s.noauth.gen - 1
  {
  }

  lemma StepKeepsRequest(sv: Service, s: State, p: Progress)
    requires GensExpected(s) && CellsStored(s) && RequestOk(sv, s, p)
    ensures RequestOk(sv, s, DoStep(sv, s, p))
  {
    hide AnswerOf, QueryOf, SnapshotOf, FirstMatching, CellsStored, GensExpected;
    GensOrdered(s);
    GenBounds(s);
    match p
    case Arrived(req, installed) =>
      if FirstMatching(sv.auths, req).Some? {
        var a := FirstMatching(sv.auths, req).value;
        if !QueryOf(a, req, sv.oracles).Fails? {
          SnapshotIsStored(s, a, req, sv.oracles);
        }
      }
    case HasRead(_, _, _, _, _, _) =>
    case Decided(_, _, _, _, _) =>
  }

  lemma GenBounds(s: State)
    requires GensExpected(s)
    ensures s.noauth.gen < |s.loads|
  {
  }

  lemma StoreKeeps(sv: Service, s: State)
    requires GensExpected(s) && CellsStored(s) && s.loader.Storing?
    ensures var s' := DoStore(s); GensExpected(s') && CellsStored(s') && MovesForward(s, s')
    ensures DoStore(s).loads == s.loads && DoStore(s).requests == s.requests
  {
  }

  lemma BeginKeeps(sv: Service, s: State, t: Tables)
    requires GensExpected(s) && CellsStored(s) && LoadsAccepted(sv, s) && s.loader.Idle? && IsAccepted(sv, t)
    ensures var s' := s.(loads := s.loads + [t], loader := Storing(0));
            GensExpected(s') && CellsStored(s') && LoadsAccepted(sv, s') && MovesForward(s, s')
  {
    hide IsAccepted;
  }

  /** One action of the loader or of a request keeps the invariant. */
  lemma ApplyKeeps(sv: Service, s: State, a: Action)
    requires Inv(sv, s) && Apply(sv, s, a).Some?
    ensures var s' := Apply(sv, s, a).value; Inv(sv, s') && MovesForward(s, s')
  {
    hide GensExpected, CellsStored, LoadsAccepted, RequestOk, DoStep, DoStore, IsTablesOf, IsAcceptable;
    var s' := Apply(sv, s, a).value;
    match a
    case BeginLoad(c, t) =>
      assert Comes(sv, c, t);
      BeginKeeps(sv, s, t);
      forall id | id in s.requests ensures RequestOk(sv, s', s.requests[id]) {
        StableRequest(sv, s, s', s.requests[id]);
      }
    case FailLoad =>
    case Store =>
      StoreKeeps(sv, s);
      assert LoadsAccepted(sv, s') by { SameLoads(sv, s, s'); }
      forall id | id in s.requests ensures RequestOk(sv, s', s.requests[id]) {
        StableRequest(sv, s, s', s.requests[id]);
      }
    case Arrive(id, req) =>
      SameStores(sv, s, s');
      NewRequest(sv, s, req);
      forall i | i in s'.requests ensures RequestOk(sv, s', s'.requests[i]) {
        StableRequest(sv, s, s', s'.requests[i]);
      }
    case Step(id) =>
      SameStores(sv, s, s');
      StepKeepsRequest(sv, s, s.requests[id]);
      forall i | i in s'.requests ensures RequestOk(sv, s', s'.requests[i]) {
        StableRequest(sv, s, s', s'.requests[i]);
      }
  }

  lemma SameLoads(sv: Service, s: State, s': State)
    requires LoadsAccepted(sv, s) && s'.loads == s.loads
    ensures LoadsAccepted(sv, s')
  {
    hide IsAccepted;
  }

  lemma SameStores(sv: Service, s: State, s': State)
    requires GensExpected(s) && CellsStored(s) && LoadsAccepted(sv, s) && s' == s.(requests := s'.requests)
    ensures GensExpected(s') && CellsStored(s') && LoadsAccepted(sv, s') && MovesForward(s, s')
  {
    hide IsAccepted;
  }

  lemma NewRequest(sv: Service, s: State, req: Request)
    ensures RequestOk(sv, s, Arrived(req, s.nkey.gen))
  {
  }

  // ---------------------------------------------------------------- whole runs

  lemma {:induction false} RunKeeps(sv: Service, s: State, actions: seq<Action>)
    requires Inv(sv, s) && Run(sv, s, actions).Some?
    ensures var s' := Run(sv, s, actions).value; Inv(sv, s') && MovesForward(s, s')
    decreases |actions|
  {
    hide Inv, Apply;
    if actions != [] {
      ApplyKeeps(sv, s, actions[0]);
      RunKeeps(sv, Apply(sv, s, actions[0]).value, actions[1..]);
    }
  }

  /** In every reachable state the four pointers name the latest load or the one before it, in the
      order of the stores, and each holds its part of a load of some acceptable configuration. */
  lemma ReachablePointers(sv: Service, t: Tables, actions: seq<Action>)
    requires IsAccepted(sv, t) && Run(sv, Initial(t), actions).Some?
    ensures var s := Run(sv, Initial(t), actions).value;
            && s.noauth.gen >= s.oauth2.gen >= s.mtls.gen >= s.nkey.gen >= s.noauth.gen - 1
            && CellsStored(s) && LoadsAccepted(sv, s)
            && (s.loader.Idle? ==> Pointers(s) == s.loads[|s.loads| - 1])
  {
    hide LoadsAccepted, IsAccepted, Run, RequestOk;
    InitialInv(sv, t);
    RunKeeps(sv, Initial(t), actions);
    GensOrdered(Run(sv, Initial(t), actions).value);
  }

  /** In every run, every decided request got the sequential decision under one complete accepted
      configuration, one that was current at some moment between its arrival and its decision. */
  lemma OutcomesAreSequential(sv: Service, t: Tables, actions: seq<Action>, id: nat)
    requires IsAccepted(sv, t) && Run(sv, Initial(t), actions).Some?
    requires id in Run(sv, Initial(t), actions).value.requests
    requires Run(sv, Initial(t), actions).value.requests[id].Decided?
    ensures var s := Run(sv, Initial(t), actions).value;
            var p := s.requests[id];
            exists g :: p.installed <= g <= p.started && g < |s.loads| && IsAccepted(sv, s.loads[g])
                        && p.decision == Decide(sv.auths, p.req, sv.oracles, s.loads[g])
  {
    hide IsAccepted, Run, Decide, GensExpected, CellsStored;
    InitialInv(sv, t);
    RunKeeps(sv, Initial(t), actions);
    var s := Run(sv, Initial(t), actions).value;
    var p := s.requests[id];
    assert RequestOk(sv, s, p);
    assert IsAccepted(sv, s.loads[LoadUsed(p)]);
  }

  /** In no reachable state does a token without subject and azp find a profile. */
  lemma EmptyIdentifiersNeverMatch(sv: Service, t: Tables, actions: seq<Action>)
    requires IsAccepted(sv, t) && Run(sv, Initial(t), actions).Some?
    ensures FindOAuth2(Run(sv, Initial(t), actions).value.oauth2.value, "", "").None?
  {
    hide Run, GensExpected, IsTablesOf, IsAcceptable, RequestOk;
    InitialInv(sv, t);
    RunKeeps(sv, Initial(t), actions);
    var s := Run(sv, Initial(t), actions).value;
    assert IsAccepted(sv, s.loads[s.oauth2.gen]);
    var c :| Comes(sv, c, s.loads[s.oauth2.gen]);
    TablesHaveIndex(sv.expand, c, s.loads[s.oauth2.gen]);
    OAuth2Matches(sv.expand, c, s.oauth2.value, "", "");
  }

  lemma TablesHaveIndex(expand: Expand, c: Config, t: Tables)
    requires IsTablesOf(expand, c, t)
    ensures IsOAuth2Index(expand, c.oauth2, t.oauth2)
  {
    hide IsOAuth2Index, IsIndex;
  }

  // ---------------------------------------------------------------- across requests

  predicate HasReadBy(p: Progress, a: Auth) {
    (p.HasRead? && p.auth == a) || (p.Decided? && p.read.Some? && p.read.value.0 == a)
  }

  function ReadGen(p: Progress, a: Auth): nat
    requires HasReadBy(p, a)
  {
    if p.HasRead? then p.gen else p.read.value.1
  }

  /** A table read during a run is not older than its pointer was at the start of the run. */
  lemma {:induction false} LaterReads(sv: Service, s: State, actions: seq<Action>, id: nat, a: Auth)
    requires Inv(sv, s) && Run(sv, s, actions).Some?
    requires id in s.requests ==> !HasReadBy(s.requests[id], a) || ReadGen(s.requests[id], a) >= GenOf(s, a)
    ensures var s' := Run(sv, s, actions).value;
            id in s'.requests && HasReadBy(s'.requests[id], a) ==> ReadGen(s'.requests[id], a) >= GenOf(s, a)
    decreases |actions|
  {
    LaterReadsFrom(sv, s, actions, id, a, GenOf(s, a));
  }

  lemma {:induction false} LaterReadsFrom(sv: Service, s: State, actions: seq<Action>, id: nat, a: Auth, g: nat)
    requires Inv(sv, s) && Run(sv, s, actions).Some? && g <= GenOf(s, a)
    requires id in s.requests && HasReadBy(s.requests[id], a) ==> ReadGen(s.requests[id], a) >= g
    ensures var s' := Run(sv, s, actions).value;
            id in s'.requests && HasReadBy(s'.requests[id], a) ==> ReadGen(s'.requests[id], a) >= g
    decreases |actions|
  {
    hide Inv, QueryOf, SnapshotOf, AnswerOf, FirstMatching, DoStore, IsTablesOf, IsAcceptable;
    if actions != [] {
      var next := Apply(sv, s, actions[0]).value;
      ApplyKeeps(sv, s, actions[0]);
      if !actions[0].Arrive? && !actions[0].Step? {
        OnlyRequestsChange(sv, s, actions[0]);
      }
      LaterReadsFrom(sv, next, actions[1..], id, a, g);
    }
  }

  lemma OnlyRequestsChange(sv: Service, s: State, a: Action)
    requires Apply(sv, s, a).Some? && !a.Arrive? && !a.Step?
    ensures Apply(sv, s, a).value.requests == s.requests
  {
    hide IsTablesOf, IsAcceptable;
  }

  /** The place of a method's pointer in the order of the stores. */
  function Rank(a: Auth): nat {
    match a
    case NoAuth => 0
    case OAuth2 => 1
    case MTLS => 2
    case NKey => 3
  }

  lemma RankedGens(s: State, a: Auth, b: Auth)
    requires GensExpected(s)
    ensures GenOf(s, a) == Expected(s, Rank(a))
    ensures Rank(b) <= Rank(a) ==> GenOf(s, a) <= GenOf(s, b)
  {
  }

  /** A run of two parts: at the end of the first, request `first` has read by method a and request
      `second` has not read by b; at the end of the second it has, from an older load. */
  predicate GoesBack(
      sv: Service, t: Tables, before: seq<Action>, after: seq<Action>, first: nat, second: nat, a: Auth, b: Auth) {
    var s := Run(sv, Initial(t), before);
    && s.Some?
    && var s' := Run(sv, s.value, after);
       && s'.Some? && first in s.value.requests && HasReadBy(s.value.requests[first], a)
       && (second in s.value.requests ==> !HasReadBy(s.value.requests[second], b))
       && second in s'.value.requests && HasReadBy(s'.value.requests[second], b)
       && ReadGen(s'.value.requests[second], b) < ReadGen(s.value.requests[first], a)
  }

  /** After a read by method a, no read by a method stored no later is from an older load. */
  lemma ReadsMoveForward(
      sv: Service, t: Tables, before: seq<Action>, after: seq<Action>, first: nat, second: nat, a: Auth, b: Auth)
    requires IsAccepted(sv, t) && Rank(b) <= Rank(a)
    ensures !GoesBack(sv, t, before, after, first, second, a, b)
  {
    hide Run, IsAccepted, Decide, QueryOf, SnapshotOf, FirstMatching, GensExpected, CellsStored, GenOf, Rank;
    if GoesBack(sv, t, before, after, first, second, a, b) {
      InitialInv(sv, t);
      RunKeeps(sv, Initial(t), before);
      var s := Run(sv, Initial(t), before).value;
      assert RequestOk(sv, s, s.requests[first]);
      RankedGens(s, a, b);
      LaterReads(sv, s, after, second, b);
    }
  }

  function Visit(id: nat, req: Request): seq<Action> {
    [Arrive(id, req), Step(id), Step(id)]
  }

  lemma RunCons(sv: Service, s: State, a: Action, rest: seq<Action>)
    requires Apply(sv, s, a).Some?
    ensures Run(sv, s, [a] + rest) == Run(sv, Apply(sv, s, a).value, rest)
  {
    hide Apply;
    assert ([a] + rest)[1..] == rest;
  }

  lemma {:induction false} RunAppend(sv: Service, s: State, first: seq<Action>, second: seq<Action>)
    requires Run(sv, s, first).Some?
    ensures Run(sv, s, first + second) == Run(sv, Run(sv, s, first).value, second)
    decreases |first|
  {
    hide Apply;
    if first == [] {
      assert first + second == second;
    } else {
      RunAppend(sv, Apply(sv, s, first[0]).value, first[1..], second);
      assert (first + second)[1..] == first[1..] + second;
    }
  }

  /** A request that nothing interleaves with is decided under the pointers it meets. */
  lemma UndisturbedVisit(sv: Service, s: State, id: nat, req: Request, a: Auth)
    requires id !in s.requests && FirstMatching(sv.auths, req) == Some(a) && !QueryOf(a, req, sv.oracles).Fails?
    ensures var d := Decided(req, s.nkey.gen, Decide(sv.auths, req, sv.oracles, Pointers(s)), Some((a, GenOf(s, a))),
                             s.noauth.gen);
            Run(sv, s, Visit(id, req)) == Some(s.(requests := s.requests[id := d]))
  {
    hide Run, AnswerOf, QueryOf, SnapshotOf, FirstMatching;
    var s1 := Apply(sv, s, Arrive(id, req)).value;
    var s2 := Apply(sv, s1, Step(id)).value;
    var s3 := Apply(sv, s2, Step(id)).value;
    RunCons(sv, s, Arrive(id, req), [Step(id), Step(id)]);
    RunCons(sv, s1, Step(id), [Step(id)]);
    RunOne(sv, s2, Step(id));
    assert [Step(id), Step(id)] == [Step(id)] + [Step(id)];
    assert Visit(id, req) == [Arrive(id, req)] + [Step(id), Step(id)];
    assert s3.requests == s.requests[id := s3.requests[id]];
  }

  lemma RunOne(sv: Service, s: State, a: Action)
    ensures Run(sv, s, [a]) == Apply(sv, s, a)
  {
    hide Apply;
    assert [a][1..] == [];
  }

  function Stores(k: nat): seq<Action> {
    if k == 0 then [] else [Store] + Stores(k - 1)
  }

  /** The first stores of a reload. */
  lemma {:induction false} StoresRun(sv: Service, s: State, k: nat)
    requires Inv(sv, s) && s.loader.Storing? && s.loader.stores + k <= 3
    ensures Run(sv, s, Stores(k)).Some?
    ensures var s' := Run(sv, s, Stores(k)).value;
            Inv(sv, s') && s'.loads == s.loads && s'.requests == s.requests && s'.loader == Storing(s.loader.stores + k)
    decreases k
  {
    hide Inv, Run, IsTablesOf, IsAcceptable;
    if k == 0 {
      RunNothing(sv, s);
    } else {
      assert s.loads != [] by { HasLoads(sv, s); }
      ApplyKeeps(sv, s, Store);
      RunCons(sv, s, Store, Stores(k - 1));
      StoresRun(sv, Apply(sv, s, Store).value, k - 1);
    }
  }

  lemma RunNothing(sv: Service, s: State)
    ensures Run(sv, s, []) == Some(s)
  {
  }

  lemma HasLoads(sv: Service, s: State)
    requires Inv(sv, s)
    ensures s.loads != [] && (s.loader.Idle? ==> s.nkey.gen == |s.loads| - 1)
  {
    hide IsAccepted, RequestOk, CellsStored;
  }

  /** The request reaches the table of method a. */
  predicate Reaches(sv: Service, req: Request, a: Auth) {
    FirstMatching(sv.auths, req) == Some(a) && !QueryOf(a, req, sv.oracles).Fails?
  }

  /** A reload up to and including the store of method a's pointer, then a whole request by a, then
      one by another method. */
  function CrossMethodRun(
      c: Config, t: Tables, a: Auth, first: nat, ra: Request, second: nat, rb: Request): seq<Action> {
    ReloadUpTo(c, t, a) + (Visit(first, ra) + Visit(second, rb))
  }

  function ReloadUpTo(c: Config, t: Tables, a: Auth): seq<Action> {
    [BeginLoad(c, t)] + Stores(Rank(a) + 1)
  }

  lemma ReloadRuns(sv: Service, s: State, c: Config, t: Tables, a: Auth)
    requires Inv(sv, s) && s.loader.Idle? && Comes(sv, c, t) && Rank(a) < 3
    ensures Run(sv, s, ReloadUpTo(c, t, a)).Some?
    ensures var s' := Run(sv, s, ReloadUpTo(c, t, a)).value;
            Inv(sv, s') && s'.loads == s.loads + [t] && s'.requests == s.requests && s'.loader == Storing(Rank(a) + 1)
  {
    hide Inv, Run, Stores, Rank, IsTablesOf, IsAcceptable;
    ApplyKeeps(sv, s, BeginLoad(c, t));
    var next := Apply(sv, s, BeginLoad(c, t)).value;
    StoresRun(sv, next, Rank(a) + 1);
    RunCons(sv, s, BeginLoad(c, t), Stores(Rank(a) + 1));
  }

  lemma DuringReload(sv: Service, s: State, a: Auth, b: Auth)
    requires Inv(sv, s) && s.loader == Storing(Rank(a) + 1) && Rank(a) < Rank(b)
    ensures |s.loads| >= 2 && GenOf(s, a) == |s.loads| - 1 && GenOf(s, b) == |s.loads| - 2
            && s.nkey.gen == |s.loads| - 2
  {
    hide IsAccepted, RequestOk, CellsStored, LoadsAccepted;
    RankedGens(s, a, b);
    RankedGens(s, b, a);
  }

  /** Requests by different methods can go back: in every reload from every reachable idle state,
      when b's pointer is stored later than a's, a request by a can read the new load and one by b
      that arrives after that decision the one before. */
  lemma CrossMethodGoesBack(
      sv: Service, s: State, c: Config, t: Tables, a: Auth, first: nat, ra: Request, b: Auth, second: nat, rb: Request)
    requires Inv(sv, s) && s.loader.Idle? && Comes(sv, c, t) && Rank(a) < Rank(b)
    requires Reaches(sv, ra, a) && Reaches(sv, rb, b)
    requires first !in s.requests && second !in s.requests && first != second
    ensures var r := Run(sv, s, CrossMethodRun(c, t, a, first, ra, second, rb));
            && r.Some? && r.value.requests.Keys == s.requests.Keys + {first, second} && s.loads != []
            && var n := |s.loads|;
               var p, q := r.value.requests[first], r.value.requests[second];
               && p.Decided? && p.installed == n - 1 && p.read == Some((a, n))
               && p.decision == Decide(sv.auths, ra, sv.oracles, t)
               && q.Decided? && q.installed == n - 1 && q.read == Some((b, n - 1))
               && q.decision == Decide(sv.auths, rb, sv.oracles, s.loads[n - 1])
  {
    hide Inv, Run, Visit, Decide, FirstMatching, QueryOf, ReloadUpTo, Comes, GenOf;
    HasLoads(sv, s);
    ReloadRuns(sv, s, c, t, a);
    var mid := Run(sv, s, ReloadUpTo(c, t, a)).value;
    DuringReload(sv, mid, a, b);
    RunAppend(sv, s, ReloadUpTo(c, t, a), Visit(first, ra) + Visit(second, rb));
    UndisturbedVisit(sv, mid, first, ra, a);
    var afterFirst := Run(sv, mid, Visit(first, ra)).value;
    RunAppend(sv, mid, Visit(first, ra), Visit(second, rb));
    SameGens(mid, afterFirst, b);
    UndisturbedVisit(sv, afterFirst, second, rb, b);
    RunKeeps(sv, mid, Visit(first, ra));
    RunKeeps(sv, afterFirst, Visit(second, rb));
    var end := Run(sv, afterFirst, Visit(second, rb)).value;
    DecisionIsSequential(sv, end, first);
    DecisionIsSequential(sv, end, second);
  }

  lemma SameGens(s: State, s': State, b: Auth)
    requires s' == s.(requests := s'.requests)
    ensures GenOf(s', b) == GenOf(s, b)
  {
  }

  lemma DecisionIsSequential(sv: Service, s: State, id: nat)
    requires Inv(sv, s) && id in s.requests && s.requests[id].Decided?
    ensures var p := s.requests[id];
            LoadUsed(p) < |s.loads| && p.decision == Decide(sv.auths, p.req, sv.oracles, s.loads[LoadUsed(p)])
  {
    hide IsAccepted, GensExpected, CellsStored, Decide;
    assert RequestOk(sv, s, s.requests[id]);
  }

  /** Exactly when successive requests can go back: if both methods can reach their tables, a read by
      b after one by a is from an older load in some run iff b's pointer is stored after a's. */
  lemma OrderOfReads(sv: Service, c: Config, t: Tables, a: Auth, ra: Request, b: Auth, rb: Request)
    requires Comes(sv, c, t) && Reaches(sv, ra, a) && Reaches(sv, rb, b)
    ensures Rank(a) < Rank(b) <==>
            exists t0, before, after, first, second ::
              IsAccepted(sv, t0) && GoesBack(sv, t0, before, after, first, second, a, b)
  {
    hide Comes, Reaches, GoesBack, IsAccepted, Rank;
    if Rank(a) < Rank(b) {
      assert IsAccepted(sv, t) by { AcceptedFrom(sv, c, t); }
      SomeRunGoesBack(sv, c, t, a, ra, b, rb);
    } else {
      forall t0, before, after, first, second | IsAccepted(sv, t0)
        ensures !GoesBack(sv, t0, before, after, first, second, a, b)
      {
        ReadsMoveForward(sv, t0, before, after, first, second, a, b);
      }
    }
  }

  lemma AcceptedFrom(sv: Service, c: Config, t: Tables)
    requires Comes(sv, c, t)
    ensures IsAccepted(sv, t)
  {
    hide Comes;
  }

  lemma SomeRunGoesBack(sv: Service, c: Config, t: Tables, a: Auth, ra: Request, b: Auth, rb: Request)
    requires Comes(sv, c, t) && IsAccepted(sv, t) && Reaches(sv, ra, a) && Reaches(sv, rb, b) && Rank(a) < Rank(b)
    ensures GoesBack(sv, t, ReloadUpTo(c, t, a) + Visit(0, ra), Visit(1, rb), 0, 1, a, b)
  {
    hide Inv, Run, Visit, Decide, ReloadUpTo, Comes, IsAccepted, FirstMatching, QueryOf, GenOf;
    var s := Initial(t);
    InitialInv(sv, t);
    ReloadRuns(sv, s, c, t, a);
    var mid := Run(sv, s, ReloadUpTo(c, t, a)).value;
    DuringReload(sv, mid, a, b);
    RunAppend(sv, s, ReloadUpTo(c, t, a), Visit(0, ra));
    UndisturbedVisit(sv, mid, 0, ra, a);
    var afterFirst := Run(sv, mid, Visit(0, ra)).value;
    SameGens(mid, afterFirst, b);
    UndisturbedVisit(sv, afterFirst, 1, rb, b);
  }

  /** When each action of the loader is possible, and what it does: one load at a time, of an
      acceptable configuration; a load that fails changes nothing; and four stores end it. */
  lemma LoaderMeaning(sv: Service, s: State, c: Config, t: Tables)
    requires Inv(sv, s)
    ensures s.loader.Idle? ==> Apply(sv, s, FailLoad) == Some(s) && Apply(sv, s, Store).None?
    ensures s.loader.Idle? && Comes(sv, c, t) ==>
              Run(sv, s, [BeginLoad(c, t), Store, Store, Store, Store])
                == Some(State(s.loads + [t], Cell(t.noauth, |s.loads|), Cell(t.oauth2, |s.loads|),
                              Cell(t.mtls, |s.loads|), Cell(t.nkey, |s.loads|), Idle, s.requests))
    ensures s.loader.Idle? && !Comes(sv, c, t) ==> Apply(sv, s, BeginLoad(c, t)).None?
    ensures !s.loader.Idle? ==> Apply(sv, s, FailLoad).None? && Apply(sv, s, BeginLoad(c, t)).None?
  {
    hide Inv, IsAcceptable, IsTablesOf;
    if s.loader.Idle? && Comes(sv, c, t) {
      var all := [BeginLoad(c, t), Store, Store, Store, Store];
      assert all[1..] == [Store, Store, Store, Store] && all[1..][1..] == [Store, Store, Store];
      assert all[1..][1..][1..] == [Store, Store] && all[1..][1..][1..][1..] == [Store];
      assert all[1..][1..][1..][1..][1..] == [];
      var s1 := Apply(sv, s, BeginLoad(c, t)).value;
      assert s1.loads[Latest(s1)] == t;
      var s2 := DoStore(s1);
      var s3 := DoStore(s2);
      var s4 := DoStore(s3);
      assert Run(sv, s1, all[1..]) == Run(sv, s2, [Store, Store, Store]);
      assert Run(sv, s2, [Store, Store, Store]) == Run(sv, s3, [Store, Store]);
      assert Run(sv, s3, [Store, Store]) == Run(sv, s4, [Store]);
      assert Run(sv, s4, [Store]) == Run(sv, DoStore(s4), []);
    }
  }

  /** When each action of a request is possible, and what it does: a new request notes the last
      complete load, a decided one the last load that has begun to store, and only a request that is
      not decided takes a step, which changes nothing but that request. */
  lemma RequestMeaning(sv: Service, s: State, id: nat, req: Request)
    requires Inv(sv, s)
    ensures id in s.requests ==> Apply(sv, s, Arrive(id, req)).None?
    ensures var complete := if s.loader.Idle? then |s.loads| - 1 else |s.loads| - 2;
            id !in s.requests ==>
              && complete >= 0 && Apply(sv, s, Step(id)).None?
              && Apply(sv, s, Arrive(id, req)) == Some(s.(requests := s.requests[id := Arrived(req, complete)]))
    ensures id in s.requests && s.requests[id].Decided? ==> Apply(sv, s, Step(id)).None?
    ensures id in s.requests && !s.requests[id].Decided? ==>
              exists p: Progress ::
                && Apply(sv, s, Step(id)) == Some(s.(requests := s.requests[id := p]))
                && p.req == s.requests[id].req && p.installed == s.requests[id].installed
                && !p.Arrived? && (s.requests[id].HasRead? ==> p.Decided?)
                && (p.Decided? ==> p.started == if s.loader == Storing(0) then |s.loads| - 2 else |s.loads| - 1)
  {
    hide FirstMatching, QueryOf, SnapshotOf, DecisionOf, AnswerOf, CellsStored, LoadsAccepted, RequestOk;
    if id in s.requests && !s.requests[id].Decided? {
      var p := DoStep(sv, s, s.requests[id]);
      assert Apply(sv, s, Step(id)) == Some(s.(requests := s.requests[id := p]));
      assert p.req == s.requests[id].req && p.installed == s.requests[id].installed;
    }
  }
}
