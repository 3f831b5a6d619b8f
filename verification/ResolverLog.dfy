/**
 The order in which the resolver goes through requirements: those it starts with from the last to
 the first, and behind them, for every requirement processed, its dependencies from the last to the
 first.  An entry whose turn comes is processed unless it was before or its markers fail.
 */
module ResolverLog {
  import opened Common
  import opened Packages

  /**
   What the resolver asks of the rest of the system: specifier matching, the dependencies of
   a distribution with given extras (None for an unknown extra), marker evaluation for one
   extra or none, and the best match of the environment.
   */
  datatype World = World(
    specs: Specifiers,
    requires_: (Distribution, set<string>) -> Option<seq<Requirement>>,
    marker: (string, Option<string>) -> bool,
    bestMatch: Requirement -> Option<Distribution>)

  /** `_ReqExtras.markers_pass` for the extras registered for `r` and those asked for. */
  predicate MarkersPass(w: World, r: Requirement, registered: set<string>, asked: set<string>) {
    r.marker.None?
    || (exists e :: e in registered && w.marker(r.marker.value, Some(e)))
    || (if asked == {} then w.marker(r.marker.value, None)
        else exists e :: e in asked && w.marker(r.marker.value, Some(e)))
  }

  function Registered(reqExtras: map<Requirement, set<string>>, r: Requirement): set<string> {
    if r in reqExtras then reqExtras[r] else {}
  }

  function Reverse<T(!new)>(s: seq<T>): (r: seq<T>)
    ensures |r| == |s| && forall i :: 0 <= i < |s| ==> r[i] == s[|s| - 1 - i]
    ensures forall x :: x in r <==> x in s
  {
    if s == [] then [] else
      assert s == [s[0]] + s[1..];
      Reverse(s[1..]) + [s[0]]
  }

  function AsSet<T>(s: seq<T>): set<T> {
    set x | x in s
  }

  function Register(reqExtras: map<Requirement, set<string>>, more: seq<Requirement>, extras: set<string>): map<Requirement, set<string>> {
    reqExtras + (map q | q in AsSet(more) :: extras)
  }

  /** Markers pass if there are none, or under one registered extra, or one asked for, or without any if none is. */
  lemma MarkersPassIff(w: World, r: Requirement, registered: set<string>, asked: set<string>)
    ensures MarkersPass(w, r, registered, asked) <==> r.marker.None? || exists e :: MarkedWith(registered, asked, e) && w.marker(r.marker.value, e)
  {
    if r.marker.Some? {
      if e :| e in registered && w.marker(r.marker.value, Some(e)) { assert MarkedWith(registered, asked, Some(e)); }
      if e :| e in asked && w.marker(r.marker.value, Some(e)) { assert MarkedWith(registered, asked, Some(e)); }
      assert asked == {} ==> MarkedWith(registered, asked, None);
    }
  }

  /** One of the values for which the markers are evaluated. */
  predicate MarkedWith(registered: set<string>, asked: set<string>, e: Option<string>) {
    match e
    case None => asked == {}
    case Some(extra) => extra in registered + asked
  }

  /** The dependencies of a processed requirement, as its distribution lists them. */
  function Deps(w: World, chosen: map<string, Distribution>, p: Requirement): seq<Requirement> {
    if p.key in chosen && w.requires_(chosen[p.key], p.extras).Some? then w.requires_(chosen[p.key], p.extras).value else []
  }

  /** Everything that is to be gone through once `order` has been processed. */
  function Log(w: World, requirements: seq<Requirement>, chosen: map<string, Distribution>, order: seq<Requirement>): seq<Requirement>
    decreases |order|
  {
    if order == [] then Reverse(requirements)
    else Log(w, requirements, chosen, order[..|order| - 1]) + Reverse(Deps(w, chosen, order[|order| - 1]))
  }

  lemma {:induction false} LogGrows(w: World, requirements: seq<Requirement>, chosen: map<string, Distribution>, order: seq<Requirement>, k: nat)
    requires k <= |order|
    ensures Log(w, requirements, chosen, order[..k]) <= Log(w, requirements, chosen, order)
    decreases |order|
  {
    if k < |order| {
      LogGrows(w, requirements, chosen, order[..|order| - 1], k);
      assert order[..|order| - 1][..k] == order[..k];
    } else {
      assert order[..k] == order;
    }
  }

  /** The last requirement comes first, and no dependency comes before a requirement or a dependency found earlier. */
  lemma {:induction false} LogEntries(w: World, requirements: seq<Requirement>, chosen: map<string, Distribution>, order: seq<Requirement>)
    ensures |requirements| <= |Log(w, requirements, chosen, order)|
    ensures forall i :: 0 <= i < |requirements| ==> Log(w, requirements, chosen, order)[i] == requirements[|requirements| - 1 - i]
  {
    LogGrows(w, requirements, chosen, order, 0);
    assert order[..0] == [];
  }

  /** From position `n` on the log has these dependencies, from the last to the first. */
  predicate HasFrom(log: seq<Requirement>, n: nat, deps: seq<Requirement>) {
    n + |deps| <= |log| && forall i :: n <= i < n + |deps| ==> log[i] == deps[|deps| - 1 - (i - n)]
  }

  /** The dependencies of a requirement stand behind all that was found before it was processed. */
  lemma {:induction false} LogDependencies(w: World, requirements: seq<Requirement>, chosen: map<string, Distribution>,
                                           order: seq<Requirement>, k: nat)
    requires k < |order|
    ensures HasFrom(Log(w, requirements, chosen, order), |Log(w, requirements, chosen, order[..k])|, Deps(w, chosen, order[k]))
  {
    LogHolds(w, requirements, chosen, order, k);
    BehindAt(Log(w, requirements, chosen, order[..k]), Deps(w, chosen, order[k]), Log(w, requirements, chosen, order));
  }

  lemma {:induction false} LogHolds(w: World, requirements: seq<Requirement>, chosen: map<string, Distribution>,
                                    order: seq<Requirement>, k: nat)
    requires k < |order|
    ensures Log(w, requirements, chosen, order[..k]) + Reverse(Deps(w, chosen, order[k])) <= Log(w, requirements, chosen, order)
  {
    LogGrows(w, requirements, chosen, order, k + 1);
    LogNext(w, requirements, chosen, order, k);
  }

  lemma {:induction false} BehindAt(before: seq<Requirement>, deps: seq<Requirement>, log: seq<Requirement>)
    requires before + Reverse(deps) <= log
    ensures HasFrom(log, |before|, deps)
  {
    var all := before + Reverse(deps);
    assert forall i :: |before| <= i < |all| ==> log[i] == all[i] && all[i] == Reverse(deps)[i - |before|];
  }

  lemma {:induction false} LogNext(w: World, requirements: seq<Requirement>, chosen: map<string, Distribution>,
                                   order: seq<Requirement>, k: nat)
    requires k < |order|
    ensures Log(w, requirements, chosen, order[..k + 1])
      == Log(w, requirements, chosen, order[..k]) + Reverse(Deps(w, chosen, order[k]))
  {
    var more := order[..k + 1];
    assert more != [] && more[..|more| - 1] == order[..k] && more[|more| - 1] == order[k];
  }

  /** The extras of the last processed requirement that asks for `q`. */
  function ExtrasFor(w: World, chosen: map<string, Distribution>, order: seq<Requirement>, q: Requirement): set<string>
    decreases |order|
  {
    if order == [] then {}
    else if q in Deps(w, chosen, order[|order| - 1]) then order[|order| - 1].extras
    else ExtrasFor(w, chosen, order[..|order| - 1], q)
  }

  /** What has been processed, in order, after some entries of the log had their turn. */
  function ProcessedBy(w: World, requirements: seq<Requirement>, asked: set<string>, chosen: map<string, Distribution>,
                       turns: nat): seq<Requirement>
    decreases turns
  {
    if turns == 0 then []
    else
      var before := ProcessedBy(w, requirements, asked, chosen, turns - 1);
      var log := Log(w, requirements, chosen, before);
      if turns > |log| then before else WithTurn(w, asked, chosen, before, log[turns - 1])
  }

  /** An entry is processed unless it was before or its markers fail. */
  function WithTurn(w: World, asked: set<string>, chosen: map<string, Distribution>, before: seq<Requirement>, q: Requirement): seq<Requirement> {
    if q in before || !MarkersPass(w, q, ExtrasFor(w, chosen, before, q), asked) then before else before + [q]
  }

  /** The distributions in the order found: an active one each time its key comes up, another one the first time. */
  function Activated(byKey: map<string, Distribution>, chosen: map<string, Distribution>, order: seq<Requirement>): seq<Distribution>
    decreases |order|
  {
    if order == [] then []
    else
      var front, last := order[..|order| - 1], order[|order| - 1];
      Activated(byKey, chosen, front)
      + if last.key in chosen && (last.key in byKey || !ComesUp(front, last.key)) then [chosen[last.key]] else []
  }

  predicate ComesUp(order: seq<Requirement>, key: string) {
    exists i :: 0 <= i < |order| && order[i].key == key
  }

  /** Without an active distribution, a key has the best match for the first requirement processed for it. */
  ghost predicate FirstDecides(w: World, byKey: map<string, Distribution>, chosen: map<string, Distribution>, order: seq<Requirement>) {
    forall i {:trigger IsFirst(order, i)} :: 0 <= i < |order| && IsFirst(order, i) && order[i].key !in byKey ==>
      order[i].key in chosen && w.bestMatch(order[i]) == Some(chosen[order[i].key])
  }

  predicate IsFirst(order: seq<Requirement>, i: int)
    requires 0 <= i < |order|
  {
    !ComesUp(order[..i], order[i].key)
  }

  /** The entries of the log up to `turns` had their turn; the others are in the queue. */
  ghost predicate InTurn(w: World, requirements: seq<Requirement>, asked: set<string>, queue: seq<Requirement>,
                         chosen: map<string, Distribution>, order: seq<Requirement>, turns: nat) {
    && order == ProcessedBy(w, requirements, asked, chosen, turns)
    && turns <= |Log(w, requirements, chosen, order)| && queue == Log(w, requirements, chosen, order)[turns..]
  }

  ghost predicate ExtrasLogged(w: World, reqExtras: map<Requirement, set<string>>, chosen: map<string, Distribution>,
                               order: seq<Requirement>) {
    forall q :: Registered(reqExtras, q) == ExtrasFor(w, chosen, order, q)
  }

  ghost predicate Logged(w: World, byKey: map<string, Distribution>, requirements: seq<Requirement>, asked: set<string>,
                         queue: seq<Requirement>, reqExtras: map<Requirement, set<string>>, chosen: map<string, Distribution>,
                         toActivate: seq<Distribution>, order: seq<Requirement>, turns: nat) {
    && (forall p :: p in order ==> p.key in chosen)
    && InTurn(w, requirements, asked, queue, chosen, order, turns)
    && ExtrasLogged(w, reqExtras, chosen, order)
    && toActivate == Activated(byKey, chosen, order)
    && FirstDecides(w, byKey, chosen, order)
  }

  /** All entries of the log had their turn. */
  ghost predicate WentThrough(w: World, requirements: seq<Requirement>, asked: set<string>, chosen: map<string, Distribution>,
                              order: seq<Requirement>, turns: nat) {
    order == ProcessedBy(w, requirements, asked, chosen, turns) && turns == |Log(w, requirements, chosen, order)|
  }

  /** The next entry of the log is `q`, which would have to be processed. */
  ghost predicate StoppedAt(w: World, requirements: seq<Requirement>, asked: set<string>, chosen: map<string, Distribution>,
                            order: seq<Requirement>, turns: nat, q: Requirement) {
    && order == ProcessedBy(w, requirements, asked, chosen, turns)
    && turns < |Log(w, requirements, chosen, order)| && Log(w, requirements, chosen, order)[turns] == q
    && q !in order && MarkersPass(w, q, ExtrasFor(w, chosen, order, q), asked)
  }

  lemma {:induction false} LogStart(w: World, byKey: map<string, Distribution>, requirements: seq<Requirement>, asked: set<string>)
    ensures Logged(w, byKey, requirements, asked, Reverse(requirements), map[], map[], [], [], 0)
  {
  }

  /** A turn that processes nothing. */
  lemma {:induction false} LogDrop(w: World, byKey: map<string, Distribution>, requirements: seq<Requirement>, asked: set<string>,
                                   queue: seq<Requirement>, reqExtras: map<Requirement, set<string>>, chosen: map<string, Distribution>,
                                   toActivate: seq<Distribution>, order: seq<Requirement>, turns: nat)
    requires Logged(w, byKey, requirements, asked, queue, reqExtras, chosen, toActivate, order, turns) && queue != []
    requires queue[0] in order || !MarkersPass(w, queue[0], Registered(reqExtras, queue[0]), asked)
    ensures Logged(w, byKey, requirements, asked, queue[1..], reqExtras, chosen, toActivate, order, turns + 1)
  {
    var log := Log(w, requirements, chosen, order);
    assert log[turns] == queue[0] && log[turns..][1..] == log[turns + 1..];
  }

  /** Nothing that was processed gets another distribution. */
  ghost predicate SameFor(chosen: map<string, Distribution>, chosen': map<string, Distribution>, order: seq<Requirement>) {
    forall p :: p in order ==> p.key in chosen && p.key in chosen' && chosen'[p.key] == chosen[p.key]
  }

  lemma {:induction false} LogStable(w: World, requirements: seq<Requirement>, chosen: map<string, Distribution>,
                                     chosen': map<string, Distribution>, order: seq<Requirement>)
    requires SameFor(chosen, chosen', order)
    ensures Log(w, requirements, chosen', order) == Log(w, requirements, chosen, order)
    decreases |order|
  {
    if order != [] { LogStable(w, requirements, chosen, chosen', order[..|order| - 1]); }
  }

  lemma {:induction false} ExtrasStable(w: World, chosen: map<string, Distribution>, chosen': map<string, Distribution>,
                                        order: seq<Requirement>, q: Requirement)
    requires SameFor(chosen, chosen', order)
    ensures ExtrasFor(w, chosen', order, q) == ExtrasFor(w, chosen, order, q)
    decreases |order|
  {
    if order != [] { ExtrasStable(w, chosen, chosen', order[..|order| - 1], q); }
  }

  lemma {:induction false} ActivatedStable(byKey: map<string, Distribution>, chosen: map<string, Distribution>,
                                           chosen': map<string, Distribution>, order: seq<Requirement>)
    requires SameFor(chosen, chosen', order)
    ensures Activated(byKey, chosen', order) == Activated(byKey, chosen, order)
    decreases |order|
  {
    if order != [] { ActivatedStable(byKey, chosen, chosen', order[..|order| - 1]); }
  }

  lemma {:induction false} ProcessedStable(w: World, requirements: seq<Requirement>, asked: set<string>,
                                           chosen: map<string, Distribution>, chosen': map<string, Distribution>, turns: nat)
    requires SameFor(chosen, chosen', ProcessedBy(w, requirements, asked, chosen, turns))
    ensures ProcessedBy(w, requirements, asked, chosen', turns) == ProcessedBy(w, requirements, asked, chosen, turns)
    decreases turns
  {
    if turns > 0 {
      var before := ProcessedBy(w, requirements, asked, chosen, turns - 1);
      ProcessedGrows(w, requirements, asked, chosen, turns);
      ProcessedStable(w, requirements, asked, chosen, chosen', turns - 1);
      LogStable(w, requirements, chosen, chosen', before);
      if turns <= |Log(w, requirements, chosen, before)| {
        TurnStable(w, asked, chosen, chosen', before, Log(w, requirements, chosen, before)[turns - 1]);
      }
    }
  }

  lemma {:induction false} TurnStable(w: World, asked: set<string>, chosen: map<string, Distribution>,
                                      chosen': map<string, Distribution>, before: seq<Requirement>, q: Requirement)
    requires SameFor(chosen, chosen', before)
    ensures WithTurn(w, asked, chosen', before, q) == WithTurn(w, asked, chosen, before, q)
  {
    ExtrasStable(w, chosen, chosen', before, q);
  }

  lemma {:induction false} ProcessedGrows(w: World, requirements: seq<Requirement>, asked: set<string>,
                                          chosen: map<string, Distribution>, turns: nat)
    requires turns > 0
    ensures forall p :: p in ProcessedBy(w, requirements, asked, chosen, turns - 1) ==>
      p in ProcessedBy(w, requirements, asked, chosen, turns)
  {
  }

  /** How the distribution for a requirement comes into the list. */
  ghost predicate Appends(byKey: map<string, Distribution>, order: seq<Requirement>, req: Requirement, dist: Distribution,
                          toActivate: seq<Distribution>, toActivate': seq<Distribution>) {
    toActivate' == if req.key in byKey || !ComesUp(order, req.key) then toActivate + [dist] else toActivate
  }

  lemma {:induction false} ProcessedOneMore(w: World, requirements: seq<Requirement>, asked: set<string>,
                                            chosen: map<string, Distribution>, turns: nat)
    requires var order := ProcessedBy(w, requirements, asked, chosen, turns);
      var log := Log(w, requirements, chosen, order);
      turns < |log| && log[turns] !in order && MarkersPass(w, log[turns], ExtrasFor(w, chosen, order, log[turns]), asked)
    ensures var order := ProcessedBy(w, requirements, asked, chosen, turns);
      ProcessedBy(w, requirements, asked, chosen, turns + 1) == order + [Log(w, requirements, chosen, order)[turns]]
  {
  }

  lemma {:induction false} LogOneMore(w: World, requirements: seq<Requirement>, chosen: map<string, Distribution>,
                                      order: seq<Requirement>, req: Requirement)
    ensures Log(w, requirements, chosen, order + [req]) == Log(w, requirements, chosen, order) + Reverse(Deps(w, chosen, req))
  {
    assert (order + [req])[..|order|] == order;
  }

  lemma {:induction false} ExtrasOneMore(w: World, reqExtras: map<Requirement, set<string>>, chosen: map<string, Distribution>,
                                         order: seq<Requirement>, req: Requirement, q: Requirement)
    requires Registered(reqExtras, q) == ExtrasFor(w, chosen, order, q)
    ensures Registered(Register(reqExtras, Reverse(Deps(w, chosen, req)), req.extras), q) == ExtrasFor(w, chosen, order + [req], q)
  {
    assert (order + [req])[..|order|] == order;
    assert q in AsSet(Reverse(Deps(w, chosen, req))) <==> q in Deps(w, chosen, req);
  }

  lemma {:induction false} FirstStillDecides(w: World, byKey: map<string, Distribution>, chosen: map<string, Distribution>,
                                             order: seq<Requirement>, req: Requirement, dist: Distribution)
    requires FirstDecides(w, byKey, chosen, order) && (forall p :: p in order ==> p.key in chosen)
    requires req.key in chosen ==> chosen[req.key] == dist
    requires req.key !in byKey && !ComesUp(order, req.key) ==> w.bestMatch(req) == Some(dist)
    ensures FirstDecides(w, byKey, chosen[req.key := dist], order + [req])
  {
    var all := order + [req];
    forall i | 0 <= i < |all| && IsFirst(all, i) && all[i].key !in byKey
      ensures all[i].key in chosen[req.key := dist] && w.bestMatch(all[i]) == Some(chosen[req.key := dist][all[i].key])
    {
      assert all[..i] == order[..i];
      if i == |order| { assert order[..i] == order; } else { assert IsFirst(order, i) && order[i] in order; }
    }
  }

  lemma {:induction false} AdvanceInTurn(w: World, requirements: seq<Requirement>, asked: set<string>, queue: seq<Requirement>,
                                         chosen: map<string, Distribution>, chosen': map<string, Distribution>,
                                         order: seq<Requirement>, turns: nat)
    requires InTurn(w, requirements, asked, queue, chosen, order, turns) && queue != [] && SameFor(chosen, chosen', order)
    requires queue[0] !in order && MarkersPass(w, queue[0], ExtrasFor(w, chosen, order, queue[0]), asked)
    ensures InTurn(w, requirements, asked, queue[1..] + Reverse(Deps(w, chosen', queue[0])), chosen', order + [queue[0]], turns + 1)
  {
    var log := Log(w, requirements, chosen, order);
    assert log[turns] == queue[0];
    LogStable(w, requirements, chosen, chosen', order);
    ProcessedStable(w, requirements, asked, chosen, chosen', turns);
    ExtrasStable(w, chosen, chosen', order, queue[0]);
    ProcessedOneMore(w, requirements, asked, chosen', turns);
    LogOneMore(w, requirements, chosen', order, queue[0]);
    AdvanceTail(log, turns, Reverse(Deps(w, chosen', queue[0])));
  }

  lemma {:induction false} AdvanceExtrasLogged(w: World, reqExtras: map<Requirement, set<string>>, chosen: map<string, Distribution>,
                                               chosen': map<string, Distribution>, order: seq<Requirement>, req: Requirement)
    requires ExtrasLogged(w, reqExtras, chosen, order) && SameFor(chosen, chosen', order)
    ensures ExtrasLogged(w, Register(reqExtras, Reverse(Deps(w, chosen', req)), req.extras), chosen', order + [req])
  {
    forall q ensures Registered(Register(reqExtras, Reverse(Deps(w, chosen', req)), req.extras), q) == ExtrasFor(w, chosen', order + [req], q) {
      ExtrasStable(w, chosen, chosen', order, q);
      ExtrasOneMore(w, reqExtras, chosen', order, req, q);
    }
  }

  lemma {:induction false} AdvanceActivated(byKey: map<string, Distribution>, chosen: map<string, Distribution>,
                                            chosen': map<string, Distribution>, order: seq<Requirement>, req: Requirement)
    requires SameFor(chosen, chosen', order) && req.key in chosen'
    ensures Appends(byKey, order, req, chosen'[req.key], Activated(byKey, chosen, order), Activated(byKey, chosen', order + [req]))
  {
    ActivatedStable(byKey, chosen, chosen', order);
    assert (order + [req])[..|order|] == order;
  }

  /** A turn that processes the head, met by `dist`. */
  lemma {:induction false} LogAdvance(w: World, byKey: map<string, Distribution>, requirements: seq<Requirement>, asked: set<string>,
                                      queue: seq<Requirement>, reqExtras: map<Requirement, set<string>>, chosen: map<string, Distribution>,
                                      toActivate: seq<Distribution>, order: seq<Requirement>, turns: nat,
                                      dist: Distribution, toActivate': seq<Distribution>)
    requires Logged(w, byKey, requirements, asked, queue, reqExtras, chosen, toActivate, order, turns) && queue != []
    requires queue[0] !in order && MarkersPass(w, queue[0], Registered(reqExtras, queue[0]), asked)
    requires queue[0].key in chosen ==> chosen[queue[0].key] == dist
    requires w.requires_(dist, queue[0].extras).Some?
    requires Appends(byKey, order, queue[0], dist, toActivate, toActivate')
    requires queue[0].key !in byKey && !ComesUp(order, queue[0].key) ==> w.bestMatch(queue[0]) == Some(dist)
    ensures var req := queue[0];
      var more := Reverse(w.requires_(dist, req.extras).value);
      Logged(w, byKey, requirements, asked, queue[1..] + more, Register(reqExtras, more, req.extras), chosen[req.key := dist],
             toActivate', order + [req], turns + 1)
  {
    var req := queue[0];
    var chosen' := chosen[req.key := dist];
    assert SameFor(chosen, chosen', order);
    assert Deps(w, chosen', req) == w.requires_(dist, req.extras).value;
    AdvanceInTurn(w, requirements, asked, queue, chosen, chosen', order, turns);
    AdvanceExtrasLogged(w, reqExtras, chosen, chosen', order, req);
    AdvanceActivated(byKey, chosen, chosen', order, req);
    FirstStillDecides(w, byKey, chosen, order, req, dist);
  }

  lemma AdvanceTail<T>(log: seq<T>, turns: nat, more: seq<T>)
    requires turns < |log|
    ensures log[turns..][1..] + more == (log + more)[turns + 1..]
  {
  }
}
