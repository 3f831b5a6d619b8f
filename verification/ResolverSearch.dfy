/**
 What a resolution means, and what every round of the search for it keeps.
 */
module ResolverSearch {
  import opened Common
  import opened Packages
  import opened ResolverLog

  datatype Resolution =
    | Activate(dists: seq<Distribution>)
    | NotFound(req: Requirement)
    | Conflict(dist: Distribution, req: Requirement)
    | UnknownExtra(dist: Distribution, req: Requirement)

  /** A set of requirements that no dependency leads out of. */
  ghost predicate ClosedUniverse(w: World, universe: set<Requirement>) {
    forall d, r, q :: r in universe && w.requires_(d, r.extras).Some? && q in w.requires_(d, r.extras).value
      ==> q in universe
  }

  /** The distribution that stands for a key. */
  function Chosen(byKey: map<string, Distribution>, best: map<string, Distribution>, key: string): Option<Distribution> {
    if key in best then Some(best[key]) else if key in byKey then Some(byKey[key]) else None
  }

  /** The distribution chosen for `p` asks for `q`. */
  ghost predicate RequiredBy(w: World, chosen: map<string, Distribution>, p: Requirement, q: Requirement) {
    && p.key in chosen
    && var deps := w.requires_(chosen[p.key], p.extras);
      deps.Some? && q in deps.value
  }

  /** `q` was asked for by a processed requirement under whose extras its markers fail. */
  ghost predicate SkippedFor(w: World, chosen: map<string, Distribution>, asked: set<string>, done: set<Requirement>, q: Requirement) {
    exists p :: p in done && RequiredBy(w, chosen, p, q) && !MarkersPass(w, q, p.extras, asked)
  }

  /** `r` is met by the distribution of its key, which knows its extras. */
  ghost predicate Met(w: World, chosen: map<string, Distribution>, r: Requirement) {
    r.key in chosen && Meets(chosen[r.key], r, w.specs) && w.requires_(chosen[r.key], r.extras).Some?
  }

  /** A requirement the caller makes, or one of a processed requirement, with markers that pass. */
  ghost predicate AskedFor(w: World, requirements: seq<Requirement>, asked: set<string>, chosen: map<string, Distribution>,
                           done: set<Requirement>, q: Requirement) {
    || (q in requirements && MarkersPass(w, q, {}, asked))
    || exists p :: p in done && RequiredBy(w, chosen, p, q) && MarkersPass(w, q, p.extras, asked)
  }

  /** In the order they were processed, each was asked for by the caller or by one before it. */
  ghost predicate AskedInTurn(w: World, requirements: seq<Requirement>, asked: set<string>, chosen: map<string, Distribution>,
                              order: seq<Requirement>) {
    forall i {:trigger AskedAt(w, requirements, asked, chosen, order, i)} :: 0 <= i < |order| ==>
      AskedAt(w, requirements, asked, chosen, order, i)
  }

  ghost predicate AskedAt(w: World, requirements: seq<Requirement>, asked: set<string>, chosen: map<string, Distribution>,
                          order: seq<Requirement>, i: int)
    requires 0 <= i < |order|
  {
    AskedFor(w, requirements, asked, chosen, AsSet(order[..i]), order[i])
  }

  ghost predicate Grounded(w: World, requirements: seq<Requirement>, asked: set<string>, chosen: map<string, Distribution>,
                           processed: set<Requirement>) {
    exists order :: AsSet(order) == processed && AskedInTurn(w, requirements, asked, chosen, order)
  }

  ghost predicate FoundFor(w: World, done: set<Requirement>, key: string, d: Distribution) {
    exists r :: r in done && r.key == key && w.bestMatch(r) == Some(d)
  }

  /** What a successful resolution means. */
  ghost predicate Solution(w: World, byKey: map<string, Distribution>, requirements: seq<Requirement>, asked: set<string>,
                           processed: set<Requirement>, chosen: map<string, Distribution>, dists: seq<Distribution>) {
    && (forall r :: r in requirements ==> r in processed || !MarkersPass(w, r, {}, asked))
    && Grounded(w, requirements, asked, chosen, processed)
    && (forall r :: r in processed ==> Met(w, chosen, r))
    && (forall r, q :: r in processed && RequiredBy(w, chosen, r, q) ==>
          q in processed || SkippedFor(w, chosen, asked, processed, q))
    && chosen.Keys == (set r | r in processed :: r.key)
    && (forall k :: k in chosen && k in byKey ==> chosen[k] == byKey[k])
    && (forall k :: k in chosen && k !in byKey ==> FoundFor(w, processed, k, chosen[k]))
    && AsSet(dists) == chosen.Values
  }

  /**
   Where every dependency passes under the extras it was asked with, the answer is closed under
   dependencies and holds every requirement, each met, and no key has two distributions.
   */
  lemma PassingIsClosed(w: World, byKey: map<string, Distribution>, requirements: seq<Requirement>, asked: set<string>,
                        processed: set<Requirement>, chosen: map<string, Distribution>, dists: seq<Distribution>)
    requires Solution(w, byKey, requirements, asked, processed, chosen, dists)
    requires forall r :: r in requirements ==> MarkersPass(w, r, {}, asked)
    requires forall p, q :: p in processed && RequiredBy(w, chosen, p, q) ==> MarkersPass(w, q, p.extras, asked)
    ensures AsSet(requirements) <= processed
    ensures forall p, q :: p in processed && RequiredBy(w, chosen, p, q) ==>
      q in processed && q.key in chosen && Meets(chosen[q.key], q, w.specs) && chosen[q.key] in dists
    ensures forall d, e :: d in dists && e in dists && d.key == e.key ==> d == e
  {
    forall d | d in dists ensures d.key in chosen && chosen[d.key] == d {
      assert d in AsSet(dists);
      var k :| k in chosen && chosen[k] == d;
      var r :| r in processed && r.key == k;
      assert Met(w, chosen, r);
    }
    forall p, q | p in processed && RequiredBy(w, chosen, p, q)
      ensures q in processed && q.key in chosen && Meets(chosen[q.key], q, w.specs) && chosen[q.key] in dists
    {
      assert q in processed;
      assert Met(w, chosen, q);
      assert chosen[q.key] in AsSet(dists);
    }
  }

  // ----- what every round of the search keeps -----

  /** The search between two rounds; `chosen` only records which distribution stood for a key. */
  datatype Search = Search(
    queue: seq<Requirement>, done: set<Requirement>, best: map<string, Distribution>,
    toActivate: seq<Distribution>, reqExtras: map<Requirement, set<string>>, chosen: map<string, Distribution>)

  ghost predicate ChosenFits(w: World, byKey: map<string, Distribution>, s: Search) {
    && s.chosen.Keys == (set r | r in s.done :: r.key)
    && (forall k :: k in s.chosen ==> Chosen(byKey, s.best, k) == Some(s.chosen[k]))
    && (forall k :: k in s.best ==> k in s.chosen && k !in byKey && FoundFor(w, s.done, k, s.best[k]))
    && AsSet(s.toActivate) == s.chosen.Values
  }

  ghost predicate ExtrasFit(w: World, s: Search) {
    && (forall r, q :: r in s.done && RequiredBy(w, s.chosen, r, q) ==> q in s.reqExtras)
    && (forall q :: q in s.reqExtras ==>
          exists p :: p in s.done && RequiredBy(w, s.chosen, p, q) && p.extras == s.reqExtras[q])
  }

  ghost predicate NeededBy(w: World, s: Search, q: Requirement) {
    exists p :: p in s.done && RequiredBy(w, s.chosen, p, q)
  }

  ghost predicate QueueFits(w: World, requirements: seq<Requirement>, asked: set<string>, universe: set<Requirement>, s: Search) {
    && s.done <= universe && AsSet(s.queue) <= universe
    && (forall q :: q in s.queue ==> q in requirements || NeededBy(w, s, q))
    && (forall r :: r in requirements ==> r in s.done || r in AsSet(s.queue) || !MarkersPass(w, r, {}, asked))
    && (forall r :: r in s.done ==> Met(w, s.chosen, r))
    && (forall r, q :: r in s.done && RequiredBy(w, s.chosen, r, q) ==>
          q in s.done || q in AsSet(s.queue) || SkippedFor(w, s.chosen, asked, s.done, q))
  }

  ghost predicate SearchFits(w: World, byKey: map<string, Distribution>, requirements: seq<Requirement>,
                             asked: set<string>, universe: set<Requirement>, s: Search) {
    QueueFits(w, requirements, asked, universe, s) && ChosenFits(w, byKey, s) && ExtrasFit(w, s)
  }

  /** Dropping the head keeps everything if it was processed before or its markers fail. */
  lemma DropKeeps(w: World, requirements: seq<Requirement>, asked: set<string>, universe: set<Requirement>, s: Search)
    requires QueueFits(w, requirements, asked, universe, s) && ExtrasFit(w, s) && s.queue != []
    requires s.queue[0] in s.done || !MarkersPass(w, s.queue[0], Registered(s.reqExtras, s.queue[0]), asked)
    ensures QueueFits(w, requirements, asked, universe, s.(queue := s.queue[1..]))
    ensures ExtrasFit(w, s.(queue := s.queue[1..]))
  {
    var head := s.queue[0];
    assert s.queue == [head] + s.queue[1..];
    assert AsSet(s.queue) == AsSet(s.queue[1..]) + {head};
    if head !in s.done && head in s.reqExtras {
      var p :| p in s.done && RequiredBy(w, s.chosen, p, head) && p.extras == s.reqExtras[head];
      assert SkippedFor(w, s.chosen, asked, s.done, head);
    }
  }

  /** A head whose markers pass was asked for. */
  lemma HeadIsAsked(w: World, requirements: seq<Requirement>, asked: set<string>, universe: set<Requirement>, s: Search)
    requires QueueFits(w, requirements, asked, universe, s) && ExtrasFit(w, s) && s.queue != []
    requires MarkersPass(w, s.queue[0], Registered(s.reqExtras, s.queue[0]), asked)
    ensures AskedFor(w, requirements, asked, s.chosen, s.done, s.queue[0])
  {
    var head := s.queue[0];
    if head in s.reqExtras {
      var p :| p in s.done && RequiredBy(w, s.chosen, p, head) && p.extras == s.reqExtras[head];
    } else {
      assert head in s.queue && !NeededBy(w, s, head);
    }
  }

  /** One more processed requirement, asked for by those before it, keeps the order. */
  lemma {:induction false} AskedInTurnGrows(w: World, requirements: seq<Requirement>, asked: set<string>,
                                            chosen: map<string, Distribution>, order: seq<Requirement>,
                                            q: Requirement, dist: Distribution)
    requires AskedInTurn(w, requirements, asked, chosen, order) && AskedFor(w, requirements, asked, chosen, AsSet(order), q)
    requires (forall r :: r in order ==> r.key in chosen) && (q.key in chosen ==> chosen[q.key] == dist)
    ensures AskedInTurn(w, requirements, asked, chosen[q.key := dist], order + [q])
    ensures AsSet(order + [q]) == AsSet(order) + {q}
  {
    var chosen', all := chosen[q.key := dist], order + [q];
    forall i | 0 <= i < |all| ensures AskedAt(w, requirements, asked, chosen', all, i) {
      assert all[..i] == order[..i];
      if i == |order| {
        assert order[..i] == order;
      } else {
        assert AskedAt(w, requirements, asked, chosen, order, i);
      }
      assert AskedFor(w, requirements, asked, chosen, AsSet(order[..i]), all[i]);
      AskedForGrows(w, requirements, asked, chosen, chosen', AsSet(order[..i]), all[i]);
    }
  }

  lemma AskedForGrows(w: World, requirements: seq<Requirement>, asked: set<string>, chosen: map<string, Distribution>,
                      chosen': map<string, Distribution>, done: set<Requirement>, q: Requirement)
    requires AskedFor(w, requirements, asked, chosen, done, q)
    requires forall k :: k in chosen ==> k in chosen' && chosen'[k] == chosen[k]
    ensures AskedFor(w, requirements, asked, chosen', done, q)
  {
    if p :| p in done && RequiredBy(w, chosen, p, q) && MarkersPass(w, q, p.extras, asked) {
      assert RequiredBy(w, chosen', p, q);
    }
  }

  /** How the distribution for the head of the queue is found. */
  ghost predicate Picked(w: World, byKey: map<string, Distribution>, s: Search, dist: Distribution,
                         best: map<string, Distribution>, toActivate: seq<Distribution>)
    requires s.queue != []
  {
    var req := s.queue[0];
    if req.key in s.best then dist == s.best[req.key] && best == s.best && toActivate == s.toActivate
    else if req.key in byKey then dist == byKey[req.key] && best == s.best && toActivate == s.toActivate + [dist]
    else w.bestMatch(req) == Some(dist) && best == s.best[req.key := dist] && toActivate == s.toActivate + [dist]
  }

  /** The state after the head has been met by `dist`, whose dependencies go to the end of the queue. */
  function Advance(s: Search, best: map<string, Distribution>, toActivate: seq<Distribution>, dist: Distribution,
                   more: seq<Requirement>): Search
    requires s.queue != []
  {
    var req := s.queue[0];
    Search(s.queue[1..] + more, s.done + {req}, best, toActivate,
           Register(s.reqExtras, more, req.extras), s.chosen[req.key := dist])
  }

  lemma ValuesAfterUpdate(m: map<string, Distribution>, k: string, d: Distribution)
    requires k in m ==> m[k] == d
    ensures m[k := d].Values == m.Values + {d}
  {
    var m' := m[k := d];
    assert m'[k] == d;
    forall x | x in m.Values ensures x in m'.Values {
      var j :| j in m && m[j] == x;
      assert m'[j] == x;
    }
  }

  lemma PickedIsChosen(w: World, byKey: map<string, Distribution>, s: Search,
                       best: map<string, Distribution>, toActivate: seq<Distribution>, dist: Distribution)
    requires ChosenFits(w, byKey, s) && s.queue != [] && Picked(w, byKey, s, dist, best, toActivate)
    ensures s.queue[0].key in s.chosen ==> s.chosen[s.queue[0].key] == dist
    ensures AsSet(toActivate) == s.chosen.Values + {dist}
  {
    var req := s.queue[0];
    if req.key in s.chosen {
      assert Chosen(byKey, s.best, req.key) == Some(s.chosen[req.key]);
    }
    if req.key in s.best {
      assert s.chosen[req.key] == dist;
    }
  }

  lemma KeysAfter(done: set<Requirement>, req: Requirement)
    ensures (set r | r in done + {req} :: r.key) == (set r | r in done :: r.key) + {req.key}
  {
  }

  /** What is remembered was the best match for some processed requirement. */
  lemma BestIsFound(w: World, byKey: map<string, Distribution>, s: Search,
                    best: map<string, Distribution>, toActivate: seq<Distribution>, dist: Distribution)
    requires ChosenFits(w, byKey, s) && s.queue != [] && Picked(w, byKey, s, dist, best, toActivate)
    ensures forall k :: k in best ==> FoundFor(w, s.done + {s.queue[0]}, k, best[k])
  {
    var done := s.done + {s.queue[0]};
    forall k | k in best ensures FoundFor(w, done, k, best[k]) {
      if k in s.best {
        var r :| r in s.done && r.key == k && w.bestMatch(r) == Some(s.best[k]);
        assert r in done;
      } else {
        assert s.queue[0] in done;
      }
    }
  }

  /** The distribution of a key is looked up where it was chosen. */
  lemma ChosenAfter(w: World, byKey: map<string, Distribution>, s: Search,
                    best: map<string, Distribution>, toActivate: seq<Distribution>, dist: Distribution)
    requires ChosenFits(w, byKey, s) && s.queue != [] && Picked(w, byKey, s, dist, best, toActivate)
    ensures var chosen := s.chosen[s.queue[0].key := dist];
      && (forall k :: k in chosen ==> Chosen(byKey, best, k) == Some(chosen[k]))
      && (forall k :: k in best ==> k in chosen && k !in byKey)
  {
    var key := s.queue[0].key;
    var chosen := s.chosen[key := dist];
    forall k | k in chosen ensures Chosen(byKey, best, k) == Some(chosen[k]) {
      if k != key {
        assert Chosen(byKey, s.best, k) == Some(s.chosen[k]);
      }
    }
  }

  lemma AdvanceKeepsChosen(w: World, byKey: map<string, Distribution>, s: Search,
                           best: map<string, Distribution>, toActivate: seq<Distribution>, dist: Distribution,
                           more: seq<Requirement>)
    requires ChosenFits(w, byKey, s) && s.queue != [] && Picked(w, byKey, s, dist, best, toActivate)
    ensures ChosenFits(w, byKey, Advance(s, best, toActivate, dist, more))
  {
    var req, s' := s.queue[0], Advance(s, best, toActivate, dist, more);
    PickedIsChosen(w, byKey, s, best, toActivate, dist);
    ValuesAfterUpdate(s.chosen, req.key, dist);
    BestIsFound(w, byKey, s, best, toActivate, dist);
    KeysAfter(s.done, req);
    ChosenAfter(w, byKey, s, best, toActivate, dist);
  }

  /** What was required, met or skipped stays so when one more distribution is chosen. */
  lemma AdvanceGrows(w: World, s: Search, s': Search, asked: set<string>, p: Requirement, q: Requirement)
    requires s.done <= s'.done && s.chosen.Keys <= s'.chosen.Keys
    requires forall k :: k in s.chosen ==> s'.chosen[k] == s.chosen[k]
    ensures p.key in s.chosen ==> (RequiredBy(w, s'.chosen, p, q) <==> RequiredBy(w, s.chosen, p, q))
    ensures Met(w, s.chosen, p) ==> Met(w, s'.chosen, p)
    ensures SkippedFor(w, s.chosen, asked, s.done, q) ==> SkippedFor(w, s'.chosen, asked, s'.done, q)
  {
    if SkippedFor(w, s.chosen, asked, s.done, q) {
      var r :| r in s.done && RequiredBy(w, s.chosen, r, q) && !MarkersPass(w, q, r.extras, asked);
      assert r in s'.done && RequiredBy(w, s'.chosen, r, q);
    }
  }

  lemma AdvanceKeepsQueue(w: World, requirements: seq<Requirement>, asked: set<string>, universe: set<Requirement>, s: Search,
                          best: map<string, Distribution>, toActivate: seq<Distribution>, dist: Distribution,
                          more: seq<Requirement>)
    requires ClosedUniverse(w, universe) && QueueFits(w, requirements, asked, universe, s) && s.queue != []
    requires s.queue[0].key in s.chosen ==> s.chosen[s.queue[0].key] == dist
    requires Meets(dist, s.queue[0], w.specs) && w.requires_(dist, s.queue[0].extras).Some?
    requires forall q :: q in more <==> q in w.requires_(dist, s.queue[0].extras).value
    ensures QueueFits(w, requirements, asked, universe, Advance(s, best, toActivate, dist, more))
  {
    var req, s' := s.queue[0], Advance(s, best, toActivate, dist, more);
    assert s.queue == [req] + s.queue[1..];
    assert req in AsSet(s.queue);
    assert AsSet(s'.queue) == AsSet(s.queue[1..]) + AsSet(more);
    assert AsSet(s.queue) == AsSet(s.queue[1..]) + {req};
    forall q | q in s'.queue ensures q in requirements || NeededBy(w, s', q) {
      if q in more {
        assert req in s'.done && RequiredBy(w, s'.chosen, req, q);
      } else {
        assert q in s.queue;
        if NeededBy(w, s, q) {
          var p :| p in s.done && RequiredBy(w, s.chosen, p, q);
          AdvanceGrows(w, s, s', asked, p, q);
          assert p in s'.done;
        }
      }
    }
    forall r | r in s'.done ensures Met(w, s'.chosen, r) {
      if r in s.done { AdvanceGrows(w, s, s', asked, r, r); }
    }
    forall r, q | r in s'.done && RequiredBy(w, s'.chosen, r, q)
      ensures q in s'.done || q in AsSet(s'.queue) || SkippedFor(w, s'.chosen, asked, s'.done, q)
    {
      if r in s.done {
        assert Met(w, s.chosen, r);
        AdvanceGrows(w, s, s', asked, r, q);
      } else {
        assert q in more && q in AsSet(more);
      }
    }
  }

  lemma AdvanceKeepsExtras(w: World, s: Search,
                           best: map<string, Distribution>, toActivate: seq<Distribution>, dist: Distribution,
                           more: seq<Requirement>)
    requires ExtrasFit(w, s) && s.queue != [] && forall r :: r in s.done ==> Met(w, s.chosen, r)
    requires s.queue[0].key in s.chosen ==> s.chosen[s.queue[0].key] == dist
    requires w.requires_(dist, s.queue[0].extras).Some?
    requires forall q :: q in more <==> q in w.requires_(dist, s.queue[0].extras).value
    ensures ExtrasFit(w, Advance(s, best, toActivate, dist, more))
  {
    var s' := Advance(s, best, toActivate, dist, more);
    forall r, q | r in s'.done && RequiredBy(w, s'.chosen, r, q) ensures q in s'.reqExtras {
      if r in s.done {
        assert Met(w, s.chosen, r);
        AdvanceGrows(w, s, s', {}, r, q);
      } else {
        assert q in more && q in AsSet(more);
      }
    }
    forall q | q in s'.reqExtras
      ensures exists p :: p in s'.done && RequiredBy(w, s'.chosen, p, q) && p.extras == s'.reqExtras[q]
    {
      ExtrasHaveAsker(w, s, best, toActivate, dist, more, q);
    }
  }

  /** Every requirement asked for has the extras of one that asks for it. */
  lemma ExtrasHaveAsker(w: World, s: Search,
                        best: map<string, Distribution>, toActivate: seq<Distribution>, dist: Distribution,
                        more: seq<Requirement>, q: Requirement)
    requires ExtrasFit(w, s) && s.queue != []
    requires s.queue[0].key in s.chosen ==> s.chosen[s.queue[0].key] == dist
    requires q in more ==> w.requires_(dist, s.queue[0].extras).Some? && q in w.requires_(dist, s.queue[0].extras).value
    requires q in Advance(s, best, toActivate, dist, more).reqExtras
    ensures var s' := Advance(s, best, toActivate, dist, more);
      exists p :: p in s'.done && RequiredBy(w, s'.chosen, p, q) && p.extras == s'.reqExtras[q]
  {
    var req, s' := s.queue[0], Advance(s, best, toActivate, dist, more);
    if q in more {
      assert q in AsSet(more) && s'.reqExtras[q] == req.extras;
      assert req in s'.done && RequiredBy(w, s'.chosen, req, q);
    } else {
      var p :| p in s.done && RequiredBy(w, s.chosen, p, q) && p.extras == s.reqExtras[q];
      assert p in s'.done && s'.chosen[p.key] == s.chosen[p.key];
      assert RequiredBy(w, s'.chosen, p, q);
    }
  }

  lemma AdvanceKeeps(w: World, byKey: map<string, Distribution>, requirements: seq<Requirement>,
                     asked: set<string>, universe: set<Requirement>, s: Search,
                     best: map<string, Distribution>, toActivate: seq<Distribution>, dist: Distribution,
                     more: seq<Requirement>)
    requires ClosedUniverse(w, universe) && SearchFits(w, byKey, requirements, asked, universe, s) && s.queue != []
    requires Picked(w, byKey, s, dist, best, toActivate)
    requires Meets(dist, s.queue[0], w.specs) && w.requires_(dist, s.queue[0].extras).Some?
    requires forall q :: q in more <==> q in w.requires_(dist, s.queue[0].extras).value
    ensures SearchFits(w, byKey, requirements, asked, universe, Advance(s, best, toActivate, dist, more))
  {
    PickedIsChosen(w, byKey, s, best, toActivate, dist);
    AdvanceKeepsChosen(w, byKey, s, best, toActivate, dist, more);
    AdvanceKeepsQueue(w, requirements, asked, universe, s, best, toActivate, dist, more);
    AdvanceKeepsExtras(w, s, best, toActivate, dist, more);
  }

  /** The order in which the requirements were processed. */
  ghost predicate Ordered(w: World, requirements: seq<Requirement>, asked: set<string>, chosen: map<string, Distribution>,
                          done: set<Requirement>, order: seq<Requirement>) {
    AsSet(order) == done && AskedInTurn(w, requirements, asked, chosen, order)
  }

  ghost predicate InProgress(w: World, byKey: map<string, Distribution>, requirements: seq<Requirement>, asked: set<string>,
                             universe: set<Requirement>, s: Search, order: seq<Requirement>, turns: nat) {
    && SearchFits(w, byKey, requirements, asked, universe, s) && Ordered(w, requirements, asked, s.chosen, s.done, order)
    && Logged(w, byKey, requirements, asked, s.queue, s.reqExtras, s.chosen, s.toActivate, order, turns)
  }

  /** What is picked for the head comes into the list as the log has it. */
  lemma PickedAppends(w: World, byKey: map<string, Distribution>, s: Search, order: seq<Requirement>,
                      best: map<string, Distribution>, toActivate: seq<Distribution>, dist: Distribution)
    requires ChosenFits(w, byKey, s) && AsSet(order) == s.done && s.queue != [] && Picked(w, byKey, s, dist, best, toActivate)
    ensures Appends(byKey, order, s.queue[0], dist, s.toActivate, toActivate)
    ensures s.queue[0].key !in byKey && !ComesUp(order, s.queue[0].key) ==> w.bestMatch(s.queue[0]) == Some(dist)
  {
    var key := s.queue[0].key;
    assert ComesUp(order, key) <==> key in s.chosen by {
      if r :| r in s.done && r.key == key { assert r in AsSet(order); }
      if i :| 0 <= i < |order| && order[i].key == key { assert order[i] in AsSet(order); }
    }
    if key in s.chosen { assert Chosen(byKey, s.best, key) == Some(s.chosen[key]); }
  }

  lemma TurnEnds(w: World, byKey: map<string, Distribution>, requirements: seq<Requirement>, asked: set<string>,
                 universe: set<Requirement>, s: Search, order: seq<Requirement>, turns: nat, best: map<string, Distribution>,
                 toActivate: seq<Distribution>, dist: Distribution, more: seq<Requirement>)
    requires ClosedUniverse(w, universe) && InProgress(w, byKey, requirements, asked, universe, s, order, turns) && s.queue != []
    requires Picked(w, byKey, s, dist, best, toActivate)
    requires Meets(dist, s.queue[0], w.specs) && w.requires_(dist, s.queue[0].extras).Some?
    requires more == Reverse(w.requires_(dist, s.queue[0].extras).value)
    requires s.queue[0] !in s.done && MarkersPass(w, s.queue[0], Registered(s.reqExtras, s.queue[0]), asked)
    ensures InProgress(w, byKey, requirements, asked, universe, Advance(s, best, toActivate, dist, more), order + [s.queue[0]], turns + 1)
  {
    HeadStops(w, byKey, requirements, asked, universe, s, order, turns);
    PickedAppends(w, byKey, s, order, best, toActivate, dist);
    LogAdvance(w, byKey, requirements, asked, s.queue, s.reqExtras, s.chosen, s.toActivate, order, turns, dist, toActivate);
    AdvanceKeeps(w, byKey, requirements, asked, universe, s, best, toActivate, dist, more);
    PickedIsChosen(w, byKey, s, best, toActivate, dist);
    forall r | r in order ensures r.key in s.chosen {
      assert r in AsSet(order);
    }
    AskedInTurnGrows(w, requirements, asked, s.chosen, order, s.queue[0], dist);
  }

  lemma NothingInProgress(w: World, byKey: map<string, Distribution>, requirements: seq<Requirement>,
                          asked: set<string>, universe: set<Requirement>)
    requires forall r :: r in requirements ==> r in universe
    ensures InProgress(w, byKey, requirements, asked, universe,
                       Search(Reverse(requirements), {}, map[], [], map[], map[]), [], 0)
  {
    LogStart(w, byKey, requirements, asked);
  }

  lemma HeadInUniverse(w: World, byKey: map<string, Distribution>, requirements: seq<Requirement>, asked: set<string>,
                       universe: set<Requirement>, s: Search, order: seq<Requirement>, turns: nat)
    requires InProgress(w, byKey, requirements, asked, universe, s, order, turns) && s.queue != []
    ensures s.queue[0] in universe
  {
    assert s.queue[0] in AsSet(s.queue);
  }

  lemma OneLess(universe: set<Requirement>, done: set<Requirement>, req: Requirement)
    requires req in universe && req !in done
    ensures universe - (done + {req}) < universe - done
  {
  }

  /** The head is dropped if it was processed before or its markers fail. */
  lemma DropEnds(w: World, byKey: map<string, Distribution>, requirements: seq<Requirement>, asked: set<string>,
                 universe: set<Requirement>, s: Search, order: seq<Requirement>, turns: nat)
    requires InProgress(w, byKey, requirements, asked, universe, s, order, turns) && s.queue != []
    requires s.queue[0] in s.done || !MarkersPass(w, s.queue[0], Registered(s.reqExtras, s.queue[0]), asked)
    ensures InProgress(w, byKey, requirements, asked, universe, s.(queue := s.queue[1..]), order, turns + 1)
  {
    DropFits(w, byKey, requirements, asked, universe, s);
    DropLogged(w, byKey, requirements, asked, s, order, turns);
  }

  lemma DropFits(w: World, byKey: map<string, Distribution>, requirements: seq<Requirement>, asked: set<string>,
                 universe: set<Requirement>, s: Search)
    requires SearchFits(w, byKey, requirements, asked, universe, s) && s.queue != []
    requires s.queue[0] in s.done || !MarkersPass(w, s.queue[0], Registered(s.reqExtras, s.queue[0]), asked)
    ensures SearchFits(w, byKey, requirements, asked, universe, s.(queue := s.queue[1..]))
  {
    DropKeeps(w, requirements, asked, universe, s);
  }

  lemma DropLogged(w: World, byKey: map<string, Distribution>, requirements: seq<Requirement>, asked: set<string>,
                   s: Search, order: seq<Requirement>, turns: nat)
    requires Logged(w, byKey, requirements, asked, s.queue, s.reqExtras, s.chosen, s.toActivate, order, turns)
    requires s.queue != [] && AsSet(order) == s.done
    requires s.queue[0] in s.done || !MarkersPass(w, s.queue[0], Registered(s.reqExtras, s.queue[0]), asked)
    ensures Logged(w, byKey, requirements, asked, s.queue[1..], s.reqExtras, s.chosen, s.toActivate, order, turns + 1)
  {
    assert s.queue[0] in order <==> s.queue[0] in AsSet(order);
    LogDrop(w, byKey, requirements, asked, s.queue, s.reqExtras, s.chosen, s.toActivate, order, turns);
  }

  /** Where the search stands when the head has to be processed. */
  lemma HeadStops(w: World, byKey: map<string, Distribution>, requirements: seq<Requirement>, asked: set<string>,
                  universe: set<Requirement>, s: Search, order: seq<Requirement>, turns: nat)
    requires InProgress(w, byKey, requirements, asked, universe, s, order, turns) && s.queue != []
    requires s.queue[0] !in s.done && MarkersPass(w, s.queue[0], Registered(s.reqExtras, s.queue[0]), asked)
    ensures StoppedAt(w, requirements, asked, s.chosen, order, turns, s.queue[0])
    ensures AskedFor(w, requirements, asked, s.chosen, s.done, s.queue[0])
  {
    HeadIsAsked(w, requirements, asked, universe, s);
    assert s.queue[0] in order <==> s.queue[0] in AsSet(order);
  }

  /** What could not be met, and why. */
  ghost predicate FailureExplained(w: World, byKey: map<string, Distribution>, universe: set<Requirement>, res: Resolution) {
    match res
    case Activate(_) => true
    case NotFound(req) => req in universe && req.key !in byKey && w.bestMatch(req) == None
    case Conflict(dist, req) =>
      && req in universe && !Meets(dist, req, w.specs)
      && (if req.key in byKey then dist == byKey[req.key]
          else exists r :: r in universe && r.key == req.key && w.bestMatch(r) == Some(dist))
    case UnknownExtra(dist, req) =>
      req in universe && Meets(dist, req, w.specs) && w.requires_(dist, req.extras) == None
  }

  /**
   What a resolution means: the requirements in `order` were processed in the order of the log; on
   success they are all of it, and otherwise the one that failed is the next entry.
   */
  ghost predicate Resolved(w: World, byKey: map<string, Distribution>, requirements: seq<Requirement>, asked: set<string>,
                           universe: set<Requirement>, res: Resolution, order: seq<Requirement>,
                           chosen: map<string, Distribution>, turns: nat) {
    && AsSet(order) <= universe && FirstDecides(w, byKey, chosen, order)
    && match res
       case Activate(dists) =>
         && Solution(w, byKey, requirements, asked, AsSet(order), chosen, dists)
         && WentThrough(w, requirements, asked, chosen, order, turns) && dists == Activated(byKey, chosen, order)
       case _ =>
         && FailureExplained(w, byKey, universe, res) && AskedFor(w, requirements, asked, chosen, AsSet(order), res.req)
         && StoppedAt(w, requirements, asked, chosen, order, turns, res.req)
  }

  lemma FinishedIsSolution(w: World, byKey: map<string, Distribution>, requirements: seq<Requirement>,
                           asked: set<string>, universe: set<Requirement>, s: Search)
    requires SearchFits(w, byKey, requirements, asked, universe, s) && s.queue == []
    requires Grounded(w, requirements, asked, s.chosen, s.done)
    ensures Solution(w, byKey, requirements, asked, s.done, s.chosen, s.toActivate)
  {
    forall k | k in s.chosen
      ensures k in byKey ==> s.chosen[k] == byKey[k]
      ensures k !in byKey ==> FoundFor(w, s.done, k, s.chosen[k])
    {
      assert Chosen(byKey, s.best, k) == Some(s.chosen[k]);
    }
  }

  lemma FinishedIsResolved(w: World, byKey: map<string, Distribution>, requirements: seq<Requirement>,
                           asked: set<string>, universe: set<Requirement>, s: Search, order: seq<Requirement>, turns: nat)
    requires InProgress(w, byKey, requirements, asked, universe, s, order, turns) && s.queue == []
    ensures Resolved(w, byKey, requirements, asked, universe, Activate(s.toActivate), order, s.chosen, turns)
  {
    assert Grounded(w, requirements, asked, s.chosen, s.done);
    FinishedIsSolution(w, byKey, requirements, asked, universe, s);
  }

  /** A conflicting distribution is the active one, or the best match for a requirement on the same key. */
  lemma PickedFrom(w: World, byKey: map<string, Distribution>, universe: set<Requirement>, s: Search,
                   best: map<string, Distribution>, toActivate: seq<Distribution>, dist: Distribution)
    requires ChosenFits(w, byKey, s) && s.done <= universe && s.queue != [] && s.queue[0] in universe
    requires Picked(w, byKey, s, dist, best, toActivate)
    ensures var req := s.queue[0];
      if req.key in byKey then dist == byKey[req.key]
      else exists r :: r in universe && r.key == req.key && w.bestMatch(r) == Some(dist)
  {
    var req := s.queue[0];
    if req.key in s.best {
      var r :| r in s.done && r.key == req.key && w.bestMatch(r) == Some(s.best[req.key]);
      assert r in universe;
    }
  }

  /** How the head of the queue can fail. */
  ghost predicate FailsOn(w: World, byKey: map<string, Distribution>, s: Search, res: Resolution)
    requires s.queue != []
  {
    match res
    case Activate(_) => false
    case NotFound(req) => req == s.queue[0] && req.key !in s.best && req.key !in byKey && w.bestMatch(req) == None
    case Conflict(dist, req) =>
      req == s.queue[0] && !Meets(dist, req, w.specs) && exists best, toActivate :: Picked(w, byKey, s, dist, best, toActivate)
    case UnknownExtra(dist, req) => req == s.queue[0] && Meets(dist, req, w.specs) && w.requires_(dist, req.extras) == None
  }

  lemma FailedIsResolved(w: World, byKey: map<string, Distribution>, requirements: seq<Requirement>, asked: set<string>,
                         universe: set<Requirement>, s: Search, order: seq<Requirement>, turns: nat, res: Resolution)
    requires InProgress(w, byKey, requirements, asked, universe, s, order, turns) && s.queue != []
    requires s.queue[0] !in s.done && MarkersPass(w, s.queue[0], Registered(s.reqExtras, s.queue[0]), asked)
    requires FailsOn(w, byKey, s, res)
    ensures Resolved(w, byKey, requirements, asked, universe, res, order, s.chosen, turns)
  {
    HeadStops(w, byKey, requirements, asked, universe, s, order, turns);
    HeadInUniverse(w, byKey, requirements, asked, universe, s, order, turns);
    if res.Conflict? {
      var best, toActivate :| Picked(w, byKey, s, res.dist, best, toActivate);
      PickedFrom(w, byKey, universe, s, best, toActivate, res.dist);
    }
  }
}
