/**
 `WorkingSet.resolve`: the breadth-first search for the distributions that a list of
 requirements needs, recursively.
 */
module Resolver {
  import opened Common
  import opened Packages
  import opened ResolverLog
  import opened ResolverSearch

  lemma RegisterOneMore(reqExtras: map<Requirement, set<string>>, more: seq<Requirement>, i: nat, extras: set<string>)
    requires i < |more|
    ensures Register(reqExtras, more[..i + 1], extras) == Register(reqExtras, more[..i], extras)[more[i] := extras]
  {
    assert AsSet(more[..i + 1]) == AsSet(more[..i]) + {more[i]} by {
      assert more[..i + 1] == more[..i] + [more[i]];
    }
  }

  /** Registers the extras under which each new requirement is asked for, the last one winning. */
  method RegisterNew(reqExtras: map<Requirement, set<string>>, more: seq<Requirement>, extras: set<string>)
    returns (r: map<Requirement, set<string>>)
    ensures r == Register(reqExtras, more, extras)
  {
    r := reqExtras;
    assert Register(reqExtras, more[..0], extras) == reqExtras;
    for i := 0 to |more|
      invariant r == Register(reqExtras, more[..i], extras)
    {
      RegisterOneMore(reqExtras, more, i, extras);
      r := r[more[i] := extras];
    }
    assert more[..|more|] == more;
  }

  datatype Meeting =
    | Failed(res: Resolution)
    | Found(dist: Distribution, best: map<string, Distribution>, toActivate: seq<Distribution>, deps: seq<Requirement>)

  class WorkingSet {
    var byKey: map<string, Distribution>

    constructor ()
      ensures byKey == map[]
    {
      byKey := map[];
    }

    /**
     Terminates on every finite universe of requirements, cyclic or not.  On success the
     processed requirements are closed under dependencies and each is met by the one
     distribution of its key; the failures say what could not be met.  Requirements are
     processed in the order of the log, up to its end or to the one that fails.
     */
    method Resolve(w: World, requirements: seq<Requirement>, asked: set<string>, ghost universe: set<Requirement>)
      returns (res: Resolution)
      requires ClosedUniverse(w, universe)
      requires forall r :: r in requirements ==> r in universe
      ensures exists order, chosen, turns :: Resolved(w, byKey, requirements, asked, universe, res, order, chosen, turns)
    {
      var queue := Reverse(requirements);
      var done: set<Requirement> := {};
      var best: map<string, Distribution> := map[];
      var toActivate: seq<Distribution> := [];
      var reqExtras: map<Requirement, set<string>> := map[];
      ghost var order: seq<Requirement>, chosen: map<string, Distribution>, turns: nat := [], map[], 0;
      NothingInProgress(w, byKey, requirements, asked, universe);
      while queue != []
        invariant InProgress(w, byKey, requirements, asked, universe,
                             Search(queue, done, best, toActivate, reqExtras, chosen), order, turns)
        decreases universe - done, |queue|
      {
        var req := queue[0];
        ghost var s := Search(queue, done, best, toActivate, reqExtras, chosen);
        HeadInUniverse(w, byKey, requirements, asked, universe, s, order, turns);
        if req in done || !MarkersPass(w, req, Registered(reqExtras, req), asked) {
          DropEnds(w, byKey, requirements, asked, universe, s, order, turns);
          queue := queue[1..];
          turns := turns + 1;
          continue;
        }
        queue := queue[1..];
        var met := Meet(w, req, best, toActivate, s);
        if met.Failed? {
          FailedIsResolved(w, byKey, requirements, asked, universe, s, order, turns, met.res);
          return met.res;
        }
        best, toActivate := met.best, met.toActivate;
        var newRequirements := Reverse(met.deps);
        queue := queue + newRequirements;
        reqExtras := RegisterNew(reqExtras, newRequirements, req.extras);
        TurnEnds(w, byKey, requirements, asked, universe, s, order, turns, best, toActivate, met.dist, newRequirements);
        OneLess(universe, done, req);
        order, turns := order + [req], turns + 1;
        done := done + {req};
        chosen := chosen[req.key := met.dist];
      }
      FinishedIsResolved(w, byKey, requirements, asked, universe, Search(queue, done, best, toActivate, reqExtras, chosen), order, turns);
      res := Activate(toActivate);
    }

    /** The distribution that meets a requirement, with its dependencies, or the exception raised. */
    method Meet(w: World, req: Requirement, best: map<string, Distribution>, toActivate: seq<Distribution>, ghost s: Search)
      returns (met: Meeting)
      requires s.queue != [] && s.queue[0] == req && s.best == best && s.toActivate == toActivate
      ensures met.Failed? ==> FailsOn(w, byKey, s, met.res)
      ensures met.Found? ==> Picked(w, byKey, s, met.dist, met.best, met.toActivate) && Meets(met.dist, req, w.specs)
      ensures met.Found? ==> w.requires_(met.dist, req.extras) == Some(met.deps)
    {
      var found, best', toActivate' := Pick(w, req, best, toActivate);
      if found.None? {
        return Failed(NotFound(req));
      }
      var dist := found.value;
      assert Picked(w, byKey, s, dist, best', toActivate');
      if !Meets(dist, req, w.specs) {
        return Failed(Conflict(dist, req));
      }
      var deps := w.requires_(dist, req.extras);
      if deps.None? {
        return Failed(UnknownExtra(dist, req));
      }
      met := Found(dist, best', toActivate', deps.value);
    }

    /** The distribution for a requirement: the one chosen before, the active one, or the best match. */
    method Pick(w: World, req: Requirement, best: map<string, Distribution>, toActivate: seq<Distribution>)
      returns (found: Option<Distribution>, best': map<string, Distribution>, toActivate': seq<Distribution>)
      ensures found == if req.key in best then Some(best[req.key])
                       else if req.key in byKey then Some(byKey[req.key]) else w.bestMatch(req)
      ensures best' == if req.key !in best && req.key !in byKey && found.Some? then best[req.key := found.value] else best
      ensures toActivate' == if req.key !in best && found.Some? then toActivate + [found.value] else toActivate
    {
      best', toActivate' := best, toActivate;
      if req.key in best {
        return Some(best[req.key]), best', toActivate';
      }
      if req.key in byKey {
        found := Some(byKey[req.key]);
      } else {
        found := w.bestMatch(req);
        if found.None? {
          return;
        }
        best' := best'[req.key := found.value];
      }
      toActivate' := toActivate' + [found.value];
    }
  }
}
