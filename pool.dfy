/**
 * Model of the `poolList` handler of api/pool.go: classify the caller's
 * permission contexts into team and pool-name filters, look the pools up,
 * and de-duplicate the combined list by pool name.
 *
 * permission.ContextsForPermission, provision.ListPossiblePools and
 * provision.ListPools are not part of this model: their results are
 * parameters.  JSON encoding and the HTTP response writer are left out; the
 * handler's outcome is a `Response` value.
 */
module PoolApi {
  import opened Wrappers

  /** The kinds of permission context the handler tells apart; every other kind is `CtxOther`. */
  datatype ContextType = CtxGlobal | CtxTeam | CtxPool | CtxOther(kind: string)

  datatype PermissionContext = PermissionContext(ctxType: ContextType, value: string)

  /** A pool: its name, which identifies it in the listing, and its other fields. */
  datatype Pool = Pool(name: string, fields: map<string, string>)

  /**
   * The filters passed to the lookups.  `None` is Go's nil slice: no
   * restriction for ListPossiblePools, and no named pools to look up.
   */
  datatype Filters = Filters(teams: Option<seq<string>>, poolNames: Option<seq<string>>)

  /** provision.ListPossiblePools, as a function of its team filter. */
  type PossiblePoolsLookup = Option<seq<string>> -> Result<seq<Pool>, string>

  /** provision.ListPools, as a function of the pool names it is given. */
  type NamedPoolsLookup = seq<string> -> Result<seq<Pool>, string>

  /** What the handler answers: 204 No Content, 200 with a JSON list, or an error it returns. */
  datatype Response = NoContent | Listed(pools: seq<Pool>) | Failed(err: string)

  // ---------------------------------------------------------------------------
  // Classifying the permission contexts

  predicate HasGlobal(cs: seq<PermissionContext>)
  {
    exists i :: 0 <= i < |cs| && cs[i].ctxType == CtxGlobal
  }

  /** The values of the contexts of type `t`, in input order. */
  function ValuesOfType(cs: seq<PermissionContext>, t: ContextType): seq<string>
  {
    if cs == [] then []
    else
      var n := |cs| - 1;
      ValuesOfType(cs[..n], t) + (if cs[n].ctxType == t then [cs[n].value] else [])
  }

  /**
   * The filters the classification loop is meant to produce: both nil
   * exactly when some context is global, otherwise the values of the team
   * and of the pool contexts.
   */
  function FiltersFor(cs: seq<PermissionContext>): (f: Filters)
    ensures f.teams.None? <==> HasGlobal(cs)
    ensures f.poolNames.None? <==> HasGlobal(cs)
    ensures f.teams.Some? ==> forall v :: v in f.teams.value <==>
      exists i :: 0 <= i < |cs| && cs[i].ctxType == CtxTeam && cs[i].value == v
    ensures f.poolNames.Some? ==> forall v :: v in f.poolNames.value <==>
      exists i :: 0 <= i < |cs| && cs[i].ctxType == CtxPool && cs[i].value == v
  {
    if HasGlobal(cs) then Filters(None, None)
    else
      ValuesOfTypeAllMembers(cs, CtxTeam);
      ValuesOfTypeAllMembers(cs, CtxPool);
      Filters(Some(ValuesOfType(cs, CtxTeam)), Some(ValuesOfType(cs, CtxPool)))
  }

  /** ValuesOfTypeMembers for every value at once. */
  lemma ValuesOfTypeAllMembers(cs: seq<PermissionContext>, t: ContextType)
    ensures forall v :: v in ValuesOfType(cs, t) <==>
      exists i :: 0 <= i < |cs| && cs[i].ctxType == t && cs[i].value == v
  {
    forall v
      ensures v in ValuesOfType(cs, t) <==> exists i :: 0 <= i < |cs| && cs[i].ctxType == t && cs[i].value == v
    {
      ValuesOfTypeMembers(cs, t, v);
    }
  }

  /** The classification loop: a global context clears both filters and ends the scan. */
  method ClassifyContexts(contexts: seq<PermissionContext>) returns (f: Filters)
    ensures f == FiltersFor(contexts)
  {
    var teams: Option<seq<string>> := Some([]);
    var poolNames: Option<seq<string>> := Some([]);
    var i := 0;
    while i < |contexts|
      invariant i <= |contexts|
      invariant !HasGlobal(contexts[..i])
      invariant teams == Some(ValuesOfType(contexts[..i], CtxTeam))
      invariant poolNames == Some(ValuesOfType(contexts[..i], CtxPool))
    {
      var c := contexts[i];
      if c.ctxType == CtxGlobal {
        teams := None;
        poolNames := None;
        break;
      }
      if c.ctxType == CtxTeam {
        teams := Some(teams.value + [c.value]);
      }
      if c.ctxType == CtxPool {
        poolNames := Some(poolNames.value + [c.value]);
      }
      assert contexts[..i + 1] == contexts[..i] + [c];
      ValuesOfTypeAppend(contexts[..i], [c], CtxTeam);
      ValuesOfTypeAppend(contexts[..i], [c], CtxPool);
      assert [c][..0] == [];
      assert ValuesOfType(contexts[..i], CtxTeam) + [] == ValuesOfType(contexts[..i], CtxTeam);
      assert ValuesOfType(contexts[..i], CtxPool) + [] == ValuesOfType(contexts[..i], CtxPool);
      i := i + 1;
      assert !HasGlobal(contexts[..i]) by {
        forall j | 0 <= j < i
          ensures contexts[..i][j].ctxType != CtxGlobal
        {
          if j < i - 1 {
            assert contexts[..i][j] == contexts[..i - 1][j];
          }
        }
      }
    }
    if i == |contexts| {
      assert contexts[..i] == contexts;
    }
    f := Filters(teams, poolNames);
  }

  /** A value is collected for type `t` exactly when some context of type `t` carries it. */
  lemma {:induction false} ValuesOfTypeMembers(cs: seq<PermissionContext>, t: ContextType, v: string)
    ensures v in ValuesOfType(cs, t) <==> exists i :: 0 <= i < |cs| && cs[i].ctxType == t && cs[i].value == v
  {
    if cs != [] {
      var n := |cs| - 1;
      ValuesOfTypeMembers(cs[..n], t, v);
      if v in ValuesOfType(cs[..n], t) {
        var i :| 0 <= i < n && cs[..n][i].ctxType == t && cs[..n][i].value == v;
        assert cs[i] == cs[..n][i];
      }
      if exists i :: 0 <= i < |cs| && cs[i].ctxType == t && cs[i].value == v {
        var i :| 0 <= i < |cs| && cs[i].ctxType == t && cs[i].value == v;
        if i < n {
          assert cs[..n][i] == cs[i];
        }
      }
    }
  }

  /** Collection keeps input order: the values for `a + b` are those for `a` followed by those for `b`. */
  lemma {:induction false} ValuesOfTypeAppend(a: seq<PermissionContext>, b: seq<PermissionContext>, t: ContextType)
    ensures ValuesOfType(a + b, t) == ValuesOfType(a, t) + ValuesOfType(b, t)
  {
    if b == [] {
      assert a + b == a;
    } else {
      var n := |b| - 1;
      ValuesOfTypeAppend(a, b[..n], t);
      assert (a + b)[..|a| + n] == a + b[..n];
    }
  }

  /** Contexts that are neither team nor pool contexts (nor global) leave both filters as they are. */
  lemma {:induction false} OtherContextsIgnored(cs: seq<PermissionContext>, c: PermissionContext)
    requires c.ctxType.CtxOther?
    ensures FiltersFor(cs + [c]) == FiltersFor(cs)
  {
    assert (cs + [c])[..|cs|] == cs;
    assert ValuesOfType(cs + [c], CtxTeam) == ValuesOfType(cs, CtxTeam);
    assert ValuesOfType(cs + [c], CtxPool) == ValuesOfType(cs, CtxPool);
    if HasGlobal(cs + [c]) {
      var i :| 0 <= i < |cs + [c]| && (cs + [c])[i].ctxType == CtxGlobal;
      assert cs[i] == (cs + [c])[i];
    }
    if HasGlobal(cs) {
      var i :| 0 <= i < |cs| && cs[i].ctxType == CtxGlobal;
      assert (cs + [c])[i] == cs[i];
    }
  }

  // ---------------------------------------------------------------------------
  // De-duplication by name

  function Names(ps: seq<Pool>): set<string>
  {
    set p | p in ps :: p.name
  }

  /** The index of the first pool called `name`. */
  function FirstIndex(ps: seq<Pool>, name: string): (k: nat)
    requires name in Names(ps)
    ensures k < |ps| && ps[k].name == name
    ensures forall j :: 0 <= j < k ==> ps[j].name != name
  {
    if ps[0].name == name then 0
    else
      assert exists p :: p in ps[1..] && p.name == name by {
        var p :| p in ps && p.name == name;
        var i :| 0 <= i < |ps| && ps[i] == p;
        assert ps[1..][i - 1] == p;
      }
      1 + FirstIndex(ps[1..], name)
  }

  /** The pools with the first occurrence of each name, in input order. */
  function DedupByName(ps: seq<Pool>): seq<Pool>
  {
    if ps == [] then []
    else
      var n := |ps| - 1;
      if ps[n].name in Names(ps[..n]) then DedupByName(ps[..n])
      else DedupByName(ps[..n]) + [ps[n]]
  }

  /** The de-duplication loop, with a set in place of Go's `map[string]struct{}`. */
  method Dedup(pools: seq<Pool>) returns (list: seq<Pool>)
    ensures list == DedupByName(pools)
  {
    var seen: set<string> := {};
    list := [];
    var i := 0;
    while i < |pools|
      invariant i <= |pools|
      invariant seen == Names(pools[..i])
      invariant list == DedupByName(pools[..i])
    {
      var p := pools[i];
      assert pools[..i + 1][..i] == pools[..i];
      assert pools[..i + 1] == pools[..i] + [p];
      i := i + 1;
      if p.name in seen {
        continue;
      }
      list := list + [p];
      seen := seen + {p.name};
    }
    assert pools[..i] == pools;
  }

  /** De-duplication loses no name and invents none. */
  lemma {:induction false} DedupKeepsNames(ps: seq<Pool>)
    ensures Names(DedupByName(ps)) == Names(ps)
  {
    if ps != [] {
      var n := |ps| - 1;
      DedupKeepsNames(ps[..n]);
      assert ps == ps[..n] + [ps[n]];
      NamesAppend(ps[..n], ps[n]);
      if ps[n].name !in Names(ps[..n]) {
        NamesAppend(DedupByName(ps[..n]), ps[n]);
      }
    }
  }

  lemma NamesAppend(ps: seq<Pool>, p: Pool)
    ensures Names(ps + [p]) == Names(ps) + {p.name}
  {
  }

  /** Each name occurs at most once in the de-duplicated list. */
  lemma {:induction false} DedupUnique(ps: seq<Pool>)
    ensures forall i, j :: 0 <= i < j < |DedupByName(ps)| ==> DedupByName(ps)[i].name != DedupByName(ps)[j].name
  {
    if ps != [] {
      var n := |ps| - 1;
      DedupUnique(ps[..n]);
      DedupKeepsNames(ps[..n]);
      var prior := DedupByName(ps[..n]);
      if ps[n].name !in Names(ps[..n]) {
        forall i | 0 <= i < |prior|
          ensures prior[i].name != ps[n].name
        {
          assert prior[i] in prior;
        }
      }
    }
  }

  /** The first pool of a name in a prefix is the first of that name in the whole list. */
  lemma FirstIndexPrefix(ps: seq<Pool>, n: nat, name: string)
    requires n <= |ps| && name in Names(ps[..n])
    ensures name in Names(ps)
    ensures FirstIndex(ps, name) == FirstIndex(ps[..n], name)
  {
  }

  /**
   * Every pool kept is the first pool of its name, and the kept pools appear
   * in the order of their first occurrences.
   */
  lemma {:induction false} DedupKeepsFirstInOrder(ps: seq<Pool>)
    ensures forall k :: 0 <= k < |DedupByName(ps)| ==>
      DedupByName(ps)[k].name in Names(ps) && DedupByName(ps)[k] == ps[FirstIndex(ps, DedupByName(ps)[k].name)]
    ensures forall a, b :: 0 <= a < b < |DedupByName(ps)| ==>
      DedupByName(ps)[a].name in Names(ps) && DedupByName(ps)[b].name in Names(ps) &&
      FirstIndex(ps, DedupByName(ps)[a].name) < FirstIndex(ps, DedupByName(ps)[b].name)
  {
    if ps != [] {
      var n := |ps| - 1;
      var pre := ps[..n];
      DedupKeepsFirstInOrder(pre);
      var prior := DedupByName(pre);
      var r := DedupByName(ps);
      forall k | 0 <= k < |prior|
        ensures prior[k].name in Names(ps) && FirstIndex(ps, prior[k].name) == FirstIndex(pre, prior[k].name) < n
      {
        FirstIndexPrefix(ps, n, prior[k].name);
      }
      if ps[n].name !in Names(pre) {
        assert ps[n] in ps;
        var last := FirstIndex(ps, ps[n].name);
        assert r == prior + [ps[n]];
      }
    }
  }

  // ---------------------------------------------------------------------------
  // The handler

  /**
   * The pools the handler collects before de-duplication: the possible pools
   * for the team filter, followed by the named pools when some pool names
   * were collected; or the first lookup error.
   */
  function Lookup(f: Filters, listPossible: PossiblePoolsLookup, listNamed: NamedPoolsLookup): (r: Result<seq<Pool>, string>)
    ensures listPossible(f.teams).Failure? ==> r == Failure(listPossible(f.teams).error)
    ensures r.Success? ==> listPossible(f.teams).Success? && listPossible(f.teams).value <= r.value
    ensures listPossible(f.teams).Success? && (f.poolNames.None? || f.poolNames.value == []) ==>
      r == listPossible(f.teams)
    ensures listPossible(f.teams).Success? && f.poolNames.Some? && f.poolNames.value != [] ==>
      match listNamed(f.poolNames.value)
      case Failure(e) => r == Failure(e)
      case Success(named) => r == Success(listPossible(f.teams).value + named)
  {
    match listPossible(f.teams)
    case Failure(e) => Failure(e)
    case Success(possible) =>
      if f.poolNames.None? || f.poolNames.value == [] then Success(possible)
      else
        match listNamed(f.poolNames.value)
        case Failure(e) => Failure(e)
        case Success(named) => Success(possible + named)
  }

  /** The response for a de-duplicated list: No Content when it is empty. */
  function Reply(ps: seq<Pool>): (r: Response)
    ensures r == NoContent <==> ps == []
    ensures !r.Failed?
    ensures r.Listed? ==> r.pools == ps
  {
    if ps == [] then NoContent else Listed(ps)
  }

  /** What poolList answers for the given contexts and lookups. */
  function PoolListing(contexts: seq<PermissionContext>, listPossible: PossiblePoolsLookup, listNamed: NamedPoolsLookup): Response
  {
    match Lookup(FiltersFor(contexts), listPossible, listNamed)
    case Failure(e) => Failed(e)
    case Success(all) => Reply(DedupByName(all))
  }

  /**
   * The handler poolList.  `appCreate` and `poolRead` are the caller's
   * contexts for the app-create and pool-read permissions.
   */
  method PoolList(appCreate: seq<PermissionContext>, poolRead: seq<PermissionContext>,
                  listPossible: PossiblePoolsLookup, listNamed: NamedPoolsLookup)
    returns (r: Response)
    ensures r == PoolListing(appCreate + poolRead, listPossible, listNamed)
  {
    var contexts := appCreate + poolRead;
    var f := ClassifyContexts(contexts);
    var pools: seq<Pool>;
    match listPossible(f.teams) {
      case Failure(e) =>
        return Failed(e);
      case Success(possible) =>
        pools := possible;
    }
    if f.poolNames.Some? && |f.poolNames.value| > 0 {
      match listNamed(f.poolNames.value) {
        case Failure(e) =>
          return Failed(e);
        case Success(named) =>
          pools := pools + named;
      }
    }
    var list := Dedup(pools);
    if |list| == 0 {
      return NoContent;
    }
    return Listed(list);
  }

  /**
   * A lookup error is answered unchanged, and No Content is answered exactly
   * when the lookups succeed with no pool at all; otherwise the listing holds
   * each name of the looked-up pools exactly once, as its first pool.
   */
  lemma ListingOutcome(contexts: seq<PermissionContext>, listPossible: PossiblePoolsLookup, listNamed: NamedPoolsLookup)
    ensures Lookup(FiltersFor(contexts), listPossible, listNamed).Failure? ==>
      PoolListing(contexts, listPossible, listNamed) == Failed(Lookup(FiltersFor(contexts), listPossible, listNamed).error)
    ensures PoolListing(contexts, listPossible, listNamed) == NoContent <==>
      Lookup(FiltersFor(contexts), listPossible, listNamed) == Success([])
    ensures PoolListing(contexts, listPossible, listNamed).Listed? ==>
      var all := Lookup(FiltersFor(contexts), listPossible, listNamed).value;
      var ps := PoolListing(contexts, listPossible, listNamed).pools;
      && Names(ps) == Names(all)
      && (forall i, j :: 0 <= i < j < |ps| ==> ps[i].name != ps[j].name)
      && (forall k :: 0 <= k < |ps| ==> ps[k].name in Names(all) && ps[k] == all[FirstIndex(all, ps[k].name)])
  {
    var lookup := Lookup(FiltersFor(contexts), listPossible, listNamed);
    if lookup.Success? {
      var all := lookup.value;
      DedupKeepsNames(all);
      DedupUnique(all);
      DedupKeepsFirstInOrder(all);
      if all != [] {
        assert all[0] in all;
        assert all[0].name in Names(DedupByName(all));
      }
    }
  }

  /** A global context lifts both filters: all possible pools, and no named-pool lookup. */
  lemma GlobalIsUnrestricted(contexts: seq<PermissionContext>, listPossible: PossiblePoolsLookup, listNamed: NamedPoolsLookup)
    requires exists i :: 0 <= i < |contexts| && contexts[i].ctxType == CtxGlobal
    ensures FiltersFor(contexts) == Filters(None, None)
    ensures Lookup(FiltersFor(contexts), listPossible, listNamed) == listPossible(None)
  {
  }

  /** Without pool contexts ListPools is never consulted: any named-pool lookup gives the same answer. */
  lemma NamedLookupOnlyWithPoolNames(contexts: seq<PermissionContext>, listPossible: PossiblePoolsLookup,
                                     listNamed: NamedPoolsLookup, otherNamed: NamedPoolsLookup)
    requires forall i :: 0 <= i < |contexts| ==> contexts[i].ctxType != CtxPool
    ensures PoolListing(contexts, listPossible, listNamed) == PoolListing(contexts, listPossible, otherNamed)
  {
    if !HasGlobal(contexts) {
      if ValuesOfType(contexts, CtxPool) != [] {
        var v := ValuesOfType(contexts, CtxPool)[0];
        ValuesOfTypeMembers(contexts, CtxPool, v);
      }
    }
  }
}
