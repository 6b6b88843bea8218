/**
 PVC handoffs in the status of a GarageCluster (internal/controller/automode_pvc_handoff.go): concurrent callers
 of updateAutoModePVCHandoffs against an API server that compares resource versions, and the check that one
 recorded handoff authorises one node.
 */
module HandoffProtocol {
  import opened Options

  datatype Handoff = Handoff(
    slotName: string, pvcName: string, pvcUID: string, previousUID: string, replacementUID: string, reservationHash: string)

  type Handoffs = seq<Handoff>

  /** A caller's mutate function; None is its error. */
  type Mutator = Handoffs -> Option<Handoffs>

  const MAX_RETRIES: nat := 3

  // ---------------------------------------------------------------- the system

  /** The stored cluster: absent, or an incarnation with its version and handoff list. Versions never repeat. */
  datatype Store = Store(present: bool, uid: string, version: nat, list: Handoffs)

  /** What a caller is doing: about to read, holding the list it wants to write, or finished. */
  datatype Phase =
    | Idle(attempts: nat)
    | Holding(attempts: nat, uid: string, version: nat, next: Handoffs)
    | Succeeded
    | Failed

  /** The callers, which do not change: the UID each was called with ("" if unknown) and its function. */
  datatype Caller = Caller(expectedUID: string, mutate: Mutator)

  datatype Commit = Commit(caller: nat, uid: string)

  /**
   commits is every write ever made, in order. base and born describe the current incarnation: the list it was
   created with, and how many commits had been made by then.
   */
  datatype System = System(store: Store, phases: seq<Phase>, base: Handoffs, born: nat, commits: seq<Commit>)

  datatype Step =
    | Read(i: nat)                            // Get, the UID check and the mutate function
    | Update(i: nat)                          // Status().Update
    | UpdateFails(i: nat)                     // an error other than a conflict
    | Touch                                   // somebody else writes another field
    | Delete
    | Create(uid: string, list: Handoffs)

  function ReadPhase(caller: Caller, store: Store, attempts: nat): Phase {
    if !store.present then Failed
    else if caller.expectedUID != "" && store.uid != caller.expectedUID then Failed
    else
      var next := caller.mutate(store.list);
      if next.None? then Failed else Holding(attempts + 1, store.uid, store.version, next.value)
  }

  /** One step; a step that is not enabled changes nothing. */
  function Next(callers: seq<Caller>, s: System, step: Step): (r: System)
    requires |s.phases| == |callers|
    ensures |r.phases| == |callers|
  {
    match step
    case Read(i) =>
      if i < |callers| && s.phases[i].Idle? then
        s.(phases := s.phases[i := ReadPhase(callers[i], s.store, s.phases[i].attempts)])
      else s
    case Update(i) =>
      if i < |callers| && s.phases[i].Holding? then
        var p := s.phases[i];
        if !s.store.present then s.(phases := s.phases[i := Failed])
        else if s.store.version != p.version then
          s.(phases := s.phases[i := if p.attempts < MAX_RETRIES then Idle(p.attempts) else Failed])
        else
          System(s.store.(list := p.next, version := s.store.version + 1), s.phases[i := Succeeded], s.base,
                 s.born, s.commits + [Commit(i, s.store.uid)])
      else s
    case UpdateFails(i) =>
      if i < |callers| && s.phases[i].Holding? then s.(phases := s.phases[i := Failed]) else s
    case Touch => s.(store := s.store.(version := s.store.version + 1))
    case Delete => s.(store := s.store.(present := false, version := s.store.version + 1))
    case Create(uid, list) =>
      if s.store.present then s
      else s.(store := Store(true, uid, s.store.version + 1, list), base := list, born := |s.commits|)
  }

  function Run(callers: seq<Caller>, s: System, steps: seq<Step>): (r: System)
    requires |s.phases| == |callers|
    ensures |r.phases| == |callers|
    decreases |steps|
  {
    if steps == [] then s else Run(callers, Next(callers, s, steps[0]), steps[1..])
  }

  // ---------------------------------------------------------------- what every state satisfies

  /** The functions of the committing callers applied in order. */
  ghost function Fold(callers: seq<Caller>, base: Handoffs, commits: seq<Commit>): Option<Handoffs>
    decreases |commits|
  {
    if commits == [] then Some(base)
    else
      var before := Fold(callers, base, commits[..|commits| - 1]);
      var i := commits[|commits| - 1].caller;
      if before.None? || i >= |callers| then None else callers[i].mutate(before.value)
  }

  /** The stored list is the first one of this incarnation with every commit to it since applied in order. */
  ghost predicate IsFolded(callers: seq<Caller>, s: System) {
    && s.born <= |s.commits|
    && (s.store.present ==> Fold(callers, s.base, s.commits[s.born..]) == Some(s.store.list))
    && (s.store.present ==> forall k :: s.born <= k < |s.commits| ==> s.commits[k].uid == s.store.uid)
  }

  /** What a caller holds: if the version is still current, its list is its function of the stored list. */
  ghost predicate HoldingOk(caller: Caller, store: Store, p: Phase) {
    p.Holding? ==>
      && p.version <= store.version
      && p.attempts <= MAX_RETRIES
      && (caller.expectedUID != "" ==> p.uid == caller.expectedUID)
      && (store.present && p.version == store.version ==> p.uid == store.uid && caller.mutate(store.list) == Some(p.next))
  }

  ghost function CommitsBy(commits: seq<Commit>, i: nat): nat {
    if commits == [] then 0
    else CommitsBy(commits[..|commits| - 1], i) + if commits[|commits| - 1].caller == i then 1 else 0
  }

  ghost predicate Inv(callers: seq<Caller>, s: System) {
    && |s.phases| == |callers|
    && IsFolded(callers, s)
    && (forall i :: 0 <= i < |callers| ==> HoldingOk(callers[i], s.store, s.phases[i]))
    && (forall i :: 0 <= i < |callers| && s.phases[i].Idle? ==> s.phases[i].attempts < MAX_RETRIES)
    && (forall i: nat :: i < |callers| ==> CommitsBy(s.commits, i) == if s.phases[i].Succeeded? then 1 else 0)
    && (forall k :: 0 <= k < |s.commits| ==> s.commits[k].caller < |callers| && Fenced(callers[s.commits[k].caller], s.commits[k]))
  }

  /** A caller that knows its cluster's UID writes to no other incarnation. */
  ghost predicate Fenced(caller: Caller, commit: Commit) {
    caller.expectedUID != "" ==> commit.uid == caller.expectedUID
  }

  /** Nobody has started, and the list is its own base. */
  ghost predicate Initial(callers: seq<Caller>, s: System) {
    && s.phases == seq(|callers|, i => Idle(0))
    && s.base == s.store.list && s.born == 0 && s.commits == []
  }

  lemma InitialInv(callers: seq<Caller>, s: System)
    requires Initial(callers, s)
    ensures Inv(callers, s)
  {
  }

  /** A successful update: the compare-and-swap writes the caller's function of the current list. */
  lemma UpdateInv(callers: seq<Caller>, s: System, i: nat)
    requires Inv(callers, s) && i < |callers| && s.phases[i].Holding?
    requires s.store.present && s.store.version == s.phases[i].version
    ensures Inv(callers, Next(callers, s, Update(i)))
  {
    hide Fold, CommitsBy;
    var s' := Next(callers, s, Update(i));
    assert HoldingOk(callers[i], s.store, s.phases[i]);
    FoldStep(callers, s, i);
    forall j: nat | j < |callers| ensures CommitsBy(s'.commits, j) == if s'.phases[j].Succeeded? then 1 else 0 {
      CommitsStep(s.commits, Commit(i, s.store.uid), j);
    }
    forall j | 0 <= j < |callers| ensures HoldingOk(callers[j], s'.store, s'.phases[j]) {
      assert HoldingOk(callers[j], s.store, s.phases[j]);
    }
  }

  lemma FoldStep(callers: seq<Caller>, s: System, i: nat)
    requires i < |callers| && s.born <= |s.commits| && Fold(callers, s.base, s.commits[s.born..]).Some?
    ensures Fold(callers, s.base, (s.commits + [Commit(i, s.store.uid)])[s.born..]) ==
            callers[i].mutate(Fold(callers, s.base, s.commits[s.born..]).value)
  {
    var log := s.commits[s.born..];
    var next := log + [Commit(i, s.store.uid)];
    assert (s.commits + [Commit(i, s.store.uid)])[s.born..] == next;
    assert next[..|next| - 1] == log;
  }

  lemma CommitsStep(commits: seq<Commit>, commit: Commit, i: nat)
    ensures CommitsBy(commits + [commit], i) == CommitsBy(commits, i) + if commit.caller == i then 1 else 0
  {
    assert (commits + [commit])[..|commits|] == commits;
  }

  lemma NextInv(callers: seq<Caller>, s: System, step: Step)
    requires Inv(callers, s)
    ensures Inv(callers, Next(callers, s, step))
  {
    hide Fold, CommitsBy;
    match step
    case Update(i) =>
      if i < |callers| && s.phases[i].Holding? && s.store.present && s.store.version == s.phases[i].version {
        UpdateInv(callers, s, i);
      }
    case Create(uid, list) =>
      if !s.store.present {
        EmptyFold(callers, list);
        assert s.commits[|s.commits|..] == [];
      }
    case _ =>
  }

  lemma EmptyFold(callers: seq<Caller>, base: Handoffs)
    ensures Fold(callers, base, []) == Some(base)
  {
  }

  /** Every state of every run satisfies the invariant. */
  lemma {:induction false} RunInv(callers: seq<Caller>, s: System, steps: seq<Step>)
    requires Inv(callers, s)
    ensures Inv(callers, Run(callers, s, steps))
    decreases |steps|
  {
    hide IsFolded, HoldingOk, CommitsBy, Next;
    if steps != [] {
      NextInv(callers, s, steps[0]);
      RunInv(callers, Next(callers, s, steps[0]), steps[1..]);
    }
  }

  /**
   Under every interleaving of readers, writers, deletions and recreations: the stored list is the incarnation's
   first list with the functions of all callers that committed to it applied in commit order, so no update is
   lost; each caller commits at most once, exactly when it reports success, after at most MAX_RETRIES reads;
   and a caller that knows a UID never writes to a recreated cluster.
   */
  lemma NoLostUpdate(callers: seq<Caller>, s: System, steps: seq<Step>)
    requires Initial(callers, s)
    ensures var r := Run(callers, s, steps);
            && IsFolded(callers, r)
            && (forall i: nat :: i < |callers| ==> CommitsBy(r.commits, i) == if r.phases[i].Succeeded? then 1 else 0)
            && (forall k :: 0 <= k < |r.commits| ==>
                  r.commits[k].caller < |callers| && Fenced(callers[r.commits[k].caller], r.commits[k]))
            && (forall i :: 0 <= i < |callers| && r.phases[i].Holding? ==> r.phases[i].attempts <= MAX_RETRIES)
  {
    hide IsFolded, CommitsBy, Next, HoldingOk, Fenced, Run;
    InitialInv(callers, s);
    RunInv(callers, s, steps);
    var r := Run(callers, s, steps);
    forall i | 0 <= i < |callers| && r.phases[i].Holding? ensures r.phases[i].attempts <= MAX_RETRIES {
      HoldingBound(callers[i], r.store, r.phases[i]);
    }
  }

  lemma HoldingBound(caller: Caller, store: Store, p: Phase)
    requires HoldingOk(caller, store, p) && p.Holding?
    ensures p.attempts <= MAX_RETRIES
  {
  }

  /** A caller that nobody disturbs between its read and its update succeeds, with its function's list. */
  lemma UndisturbedSucceeds(callers: seq<Caller>, s: System, i: nat)
    requires Inv(callers, s) && i < |callers| && s.phases[i].Idle? && s.store.present
    requires callers[i].expectedUID == "" || callers[i].expectedUID == s.store.uid
    requires callers[i].mutate(s.store.list).Some?
    ensures var r := Run(callers, s, [Read(i), Update(i)]);
            r.phases[i] == Succeeded && Some(r.store.list) == callers[i].mutate(s.store.list)
  {
    hide Fold, CommitsBy;
    var steps := [Read(i), Update(i)];
    assert steps[1..] == [Update(i)] && [Update(i)][1..] == [];
    var s1 := Next(callers, s, Read(i));
    assert Run(callers, s, steps) == Run(callers, s1, [Update(i)]);
    assert Run(callers, s1, [Update(i)]) == Next(callers, s1, Update(i));
  }

  // ---------------------------------------------------------------- retries

  /** This step is an update of caller i that meets another version than the one it read. */
  ghost predicate Conflict(s: System, step: Step, i: nat)
    requires i < |s.phases|
  {
    step == Update(i) && s.phases[i].Holding? && s.store.present && s.store.version != s.phases[i].version
  }

  ghost function Conflicts(callers: seq<Caller>, s: System, steps: seq<Step>, i: nat): nat
    requires |s.phases| == |callers| && i < |callers|
    decreases |steps|
  {
    if steps == [] then 0
    else (if Conflict(s, steps[0], i) then 1 else 0) + Conflicts(callers, Next(callers, s, steps[0]), steps[1..], i)
  }

  /** A step after which caller i must not go on: nothing to read, another incarnation, its own error, a failing update. */
  ghost predicate Stops(caller: Caller, store: Store, phase: Phase, step: Step, i: nat) {
    || (phase.Idle? && step == Read(i) &&
        (|| !store.present
         || (caller.expectedUID != "" && caller.expectedUID != store.uid)
         || caller.mutate(store.list).None?))
    || (phase.Holding? && (step == UpdateFails(i) || (step == Update(i) && !store.present)))
  }

  /** Some step of the run is such a step. */
  ghost predicate Stopped(callers: seq<Caller>, s: System, steps: seq<Step>, i: nat)
    requires |s.phases| == |callers| && i < |callers|
    decreases |steps|
  {
    steps != [] &&
    (Stops(callers[i], s.store, s.phases[i], steps[0], i) || Stopped(callers, Next(callers, s, steps[0]), steps[1..], i))
  }

  /** The attempts that are over. */
  ghost function Spent(p: Phase): nat {
    match p
    case Idle(n) => n
    case Holding(n, _, _, _) => if n > 0 then n - 1 else 0
    case _ => 0
  }

  ghost predicate Active(p: Phase) {
    (p.Idle? || (p.Holding? && p.attempts > 0)) && Spent(p) < MAX_RETRIES
  }

  /** What one step does to caller i: it finishes for a reason, is done, or has one attempt less after a conflict. */
  lemma StepExact(callers: seq<Caller>, s: System, step: Step, i: nat)
    requires |s.phases| == |callers| && i < |callers| && Active(s.phases[i])
    ensures var p := Next(callers, s, step).phases[i];
            var spent := Spent(s.phases[i]) + if Conflict(s, step, i) then 1 else 0;
            if Stops(callers[i], s.store, s.phases[i], step, i) || spent >= MAX_RETRIES then p == Failed
            else p == Succeeded || (Active(p) && Spent(p) == spent)
  {
  }

  lemma {:induction false} FinishedStays(callers: seq<Caller>, s: System, steps: seq<Step>, i: nat)
    requires |s.phases| == |callers| && i < |callers| && (s.phases[i].Succeeded? || s.phases[i].Failed?)
    ensures Run(callers, s, steps).phases[i] == s.phases[i]
    ensures Conflicts(callers, s, steps, i) == 0 && !Stopped(callers, s, steps, i)
    decreases |steps|
  {
    if steps != [] {
      assert Next(callers, s, steps[0]).phases[i] == s.phases[i];
      FinishedStays(callers, Next(callers, s, steps[0]), steps[1..], i);
    }
  }

  lemma {:induction false} FailureFrom(callers: seq<Caller>, s: System, steps: seq<Step>, i: nat)
    requires |s.phases| == |callers| && i < |callers| && Active(s.phases[i])
    ensures var spent := Spent(s.phases[i]) + Conflicts(callers, s, steps, i);
            var p := Run(callers, s, steps).phases[i];
            && (p == Failed <==> Stopped(callers, s, steps, i) || spent >= MAX_RETRIES)
            && (p == Failed || p == Succeeded || (Active(p) && Spent(p) == spent))
            && spent <= MAX_RETRIES
    decreases |steps|
  {
    if steps != [] {
      var next := Next(callers, s, steps[0]);
      StepExact(callers, s, steps[0], i);
      hide Next, Stops, Conflict;
      if next.phases[i].Failed? || next.phases[i].Succeeded? {
        FinishedStays(callers, next, steps[1..], i);
      } else {
        FailureFrom(callers, next, steps[1..], i);
      }
    }
  }

  /**
   Under every interleaving a caller fails exactly if the cluster was absent or another one when it looked, its own
   function failed, an update failed otherwise, or MAX_RETRIES of its updates met a conflict. There never are more.
   */
  lemma FailsExactly(callers: seq<Caller>, s: System, steps: seq<Step>, i: nat)
    requires Initial(callers, s) && i < |callers|
    ensures Run(callers, s, steps).phases[i] == Failed <==>
            Stopped(callers, s, steps, i) || Conflicts(callers, s, steps, i) == MAX_RETRIES
    ensures Conflicts(callers, s, steps, i) <= MAX_RETRIES
  {
    FailureFrom(callers, s, steps, i);
  }

  /**
   A caller that lost fewer than MAX_RETRIES races, counting the one that its pending update may lose, and is then
   left alone commits its function of the list as it is then, whatever came before.
   */
  lemma RetriesThenCommits(callers: seq<Caller>, s: System, steps: seq<Step>, i: nat)
    requires Initial(callers, s) && i < |callers| && !Stopped(callers, s, steps, i)
    requires var r := Run(callers, s, steps);
             && r.phases[i] != Succeeded && r.store.present
             && (callers[i].expectedUID == "" || callers[i].expectedUID == r.store.uid)
             && callers[i].mutate(r.store.list).Some?
             && Conflicts(callers, s, steps, i) + (if Conflict(r, Update(i), i) then 1 else 0) < MAX_RETRIES
    ensures var r := Run(callers, s, steps);
            var end := Run(callers, r, [Update(i), Read(i), Update(i)]);
            && end.phases[i] == Succeeded && Some(end.store.list) == callers[i].mutate(r.store.list)
            && end.commits == r.commits + [Commit(i, r.store.uid)]
  {
    var r := Run(callers, s, steps);
    FailureFrom(callers, s, steps, i);
    InitialInv(callers, s);
    RunInv(callers, s, steps);
    assert HoldingOk(callers[i], r.store, r.phases[i]);
    hide Fold, CommitsBy, IsFolded, Conflicts, Stopped, Initial;
    ThreeSteps(callers, r, Update(i), Read(i), Update(i));
  }

  lemma ThreeSteps(callers: seq<Caller>, s: System, a: Step, b: Step, c: Step)
    requires |s.phases| == |callers|
    ensures Run(callers, s, [a, b, c]) == Next(callers, Next(callers, Next(callers, s, a), b), c)
  {
    hide Next;
    var steps := [a, b, c];
    assert steps[1..] == [b, c] && [b, c][1..] == [c] && [c][1..] == [];
    assert Run(callers, s, steps) == Run(callers, Next(callers, s, a), [b, c]);
    assert Run(callers, Next(callers, s, a), [b, c]) == Run(callers, Next(callers, Next(callers, s, a), b), [c]);
  }

  /** n rounds in which somebody else writes between the read and the update of caller i. */
  function LostRaces(i: nat, n: nat): seq<Step> {
    if n == 0 then [] else [Read(i), Touch, Update(i)] + LostRaces(i, n - 1)
  }

  /** Each lost race costs one attempt and nothing else; the last one is fatal. */
  lemma {:induction false} RacesCost(callers: seq<Caller>, s: System, i: nat, n: nat)
    requires |s.phases| == |callers| && i < |callers| && s.phases[i].Idle? && s.phases[i].attempts + n <= MAX_RETRIES
    requires s.phases[i].attempts < MAX_RETRIES && s.store.present
    requires callers[i].expectedUID == "" || callers[i].expectedUID == s.store.uid
    requires callers[i].mutate(s.store.list).Some?
    ensures var r := Run(callers, s, LostRaces(i, n));
            var spent := s.phases[i].attempts + n;
            && r.phases[i] == (if spent < MAX_RETRIES then Idle(spent) else Failed)
            && r.store == s.store.(version := s.store.version + n) && r.commits == s.commits
    decreases n
  {
    if n > 0 {
      var steps := LostRaces(i, n);
      var next := Next(callers, Next(callers, Next(callers, s, Read(i)), Touch), Update(i));
      ThreeSteps(callers, s, Read(i), Touch, Update(i));
      RunJoin(callers, s, [Read(i), Touch, Update(i)], LostRaces(i, n - 1));
      if next.phases[i].Idle? {
        RacesCost(callers, next, i, n - 1);
      }
    }
  }

  lemma {:induction false} RunJoin(callers: seq<Caller>, s: System, first: seq<Step>, second: seq<Step>)
    requires |s.phases| == |callers|
    ensures Run(callers, s, first + second) == Run(callers, Run(callers, s, first), second)
    decreases |first|
  {
    hide Next;
    if first == [] {
      assert first + second == second;
    } else {
      assert (first + second)[0] == first[0] && (first + second)[1..] == first[1..] + second;
      RunJoin(callers, Next(callers, s, first[0]), first[1..], second);
    }
  }

  // ---------------------------------------------------------------- exclusive handoffs

  /** The parts of a GarageNode and of a PVC that the check reads. */
  datatype NodeView = NodeView(
    uid: string, slot: string, tier: string, managedBy: string, clusterName: string, controlled: bool, nonce: string)

  datatype Claim = Claim(name: string, uid: string, pinnedUID: string)

  datatype Retained = NotRetained | Refused | Granted(handoff: Handoff)

  const TIERS: set<string> := {"gateway", "storage"}
  const OPERATOR := "operator"

  /** The node is an operator-managed node of the cluster, with an identity. */
  predicate Eligible(clusterName: string, node: NodeView, claim: Claim) {
    && node.uid != "" && claim.uid != ""
    && node.slot != "" && node.managedBy == OPERATOR && node.tier in TIERS
    && node.clusterName == clusterName && node.controlled
  }

  /** The recorded handoff names exactly this slot, claim and node, and the node holds the nonce. */
  predicate Authorises(digest: string -> string, h: Handoff, node: NodeView, claim: Claim) {
    && h.slotName == node.slot && h.pvcUID == claim.uid && h.replacementUID == node.uid
    && node.nonce != "" && h.reservationHash != "" && digest(node.nonce) == h.reservationHash
    && (claim.pinnedUID == h.previousUID || claim.pinnedUID == h.replacementUID)
  }

  /** retainedAutoModePVCHandoff. */
  method RetainedHandoff(digest: string -> string, clusterName: string, handoffs: Handoffs, node: NodeView, claim: Claim)
    returns (r: Retained)
    ensures r.Granted? <==>
            && "" !in {node.uid, node.slot, claim.uid} && node.tier in {"gateway", "storage"}
            && (node.managedBy, node.clusterName, node.controlled) == ("operator", clusterName, true)
            && exists k :: 0 <= k < |handoffs| && OnlyFor(handoffs, k, claim.name) &&
                 var h := handoffs[k];
                 && (h.slotName, h.pvcUID, h.replacementUID) == (node.slot, claim.uid, node.uid)
                 && node.nonce != "" && h.reservationHash == digest(node.nonce) && h.reservationHash != ""
                 && claim.pinnedUID in {h.previousUID, h.replacementUID}
    ensures r.Granted? ==> r.handoff in handoffs && r.handoff.pvcName == claim.name && Authorises(digest, r.handoff, node, claim)
    ensures r.NotRetained? <==> !Eligible(clusterName, node, claim) || forall h :: h in handoffs ==> h.pvcName != claim.name
  {
    if !Eligible(clusterName, node, claim) {
      return NotRetained;
    }
    var position := -1;
    for i := 0 to |handoffs|
      invariant -1 <= position < i
      invariant position < 0 ==> forall k :: 0 <= k < i ==> handoffs[k].pvcName != claim.name
      invariant 0 <= position ==> handoffs[position].pvcName == claim.name
      invariant 0 <= position ==> forall k :: 0 <= k < i && k != position ==> handoffs[k].pvcName != claim.name
    {
      if handoffs[i].pvcName == claim.name {
        if 0 <= position {
          return Refused;
        }
        position := i;
      }
    }
    if position < 0 {
      return NotRetained;
    }
    assert OnlyFor(handoffs, position, claim.name);
    if !Authorises(digest, handoffs[position], node, claim) {
      return Refused;
    }
    return Granted(handoffs[position]);
  }

  /** Entry k is the only one for the claim. */
  ghost predicate OnlyFor(handoffs: Handoffs, k: nat, name: string)
    requires k < |handoffs|
  {
    handoffs[k].pvcName == name && forall j :: 0 <= j < |handoffs| && handoffs[j].pvcName == name ==> j == k
  }

  /** A cluster status grants one claim to one node at most. */
  lemma OneNodePerClaim(digest: string -> string, handoffs: Handoffs, j: nat, k: nat, n1: NodeView, n2: NodeView, claim: Claim)
    requires j < |handoffs| && OnlyFor(handoffs, j, claim.name) && Authorises(digest, handoffs[j], n1, claim)
    requires k < |handoffs| && OnlyFor(handoffs, k, claim.name) && Authorises(digest, handoffs[k], n2, claim)
    ensures n1.uid == n2.uid && n1.slot == n2.slot
  {
  }
}
