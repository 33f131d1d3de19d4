/**
 * The San Francisco map's cleaner (maps/cleaners/sf.py): drops the one subway route
 * that is tagged wrongly, the Altamont Corridor Express, from the OSM data in place.
 */
module SfCleaner {
  import opened Wrappers
  import opened OsmHandlers

  /** Whether `p` begins `s`. */
  predicate IsPrefix(p: string, s: string) {
    |p| <= |s| && s[..|p|] == p
  }

  /** Whether `sub` occurs in `s` starting at index `i`. */
  predicate OccursAt(s: string, sub: string, i: nat) {
    i + |sub| <= |s| && s[i..i + |sub|] == sub
  }

  /** Python's `sub in s` on strings: `sub` occurs somewhere in `s`. */
  function Contains(s: string, sub: string): (r: bool)
    ensures r <==> exists i: nat :: OccursAt(s, sub, i)
  {
    if IsPrefix(sub, s) then
      assert OccursAt(s, sub, 0);
      true
    else if s == [] then
      assert forall i: nat :: !OccursAt(s, sub, i);
      false
    else
      var r := Contains(s[1..], sub);
      assert forall i: nat :: OccursAt(s[1..], sub, i) <==> OccursAt(s, sub, i + 1) by {
        forall i: nat
          ensures OccursAt(s[1..], sub, i) <==> OccursAt(s, sub, i + 1)
        {
          if i + 1 + |sub| <= |s| {
            assert s[1..][i..i + |sub|] == s[i + 1..i + 1 + |sub|];
          }
        }
      }
      assert !OccursAt(s, sub, 0);
      assert forall i: nat :: OccursAt(s, sub, i) ==> i > 0;
      assert r ==> exists i: nat :: OccursAt(s, sub, i) by {
        if r {
          var i: nat :| OccursAt(s[1..], sub, i);
          assert OccursAt(s, sub, i + 1);
        }
      }
      assert (exists i: nat :: OccursAt(s, sub, i)) ==> r by {
        if exists i: nat :: OccursAt(s, sub, i) {
          var i: nat :| OccursAt(s, sub, i);
          assert OccursAt(s[1..], sub, i - 1);
        }
      }
      r
  }

  /** The route `filter_subway_route` rejects. */
  const Rejected := "Altamont Corridor Express"

  /** `filter_subway_route`: false for the rejected route; None for a route without a name, where the source raises. */
  function FilterSubwayRoute(route: RelationRecord): (r: Option<bool>)
    ensures r.None? <==> "name" !in route.tags
    ensures r.Some? ==> (r.value <==> !Contains(route.tags["name"], Rejected))
  {
    if "name" !in route.tags then None else Some(!Contains(route.tags["name"], Rejected))
  }

  /** The routes `metros` keeps, in order; None when one of them has no name. */
  function Kept(routes: seq<RelationRecord>): Option<seq<RelationRecord>> {
    if routes == [] then Some([])
    else
      var last := routes[|routes| - 1];
      match (Kept(routes[..|routes| - 1]), FilterSubwayRoute(last))
      case (Some(k), Some(keep)) => Some(k + if keep then [last] else [])
      case _ => None
  }

  /** `metros` succeeds exactly when every route has a name. */
  lemma {:induction false} KeptDefined(routes: seq<RelationRecord>)
    ensures Kept(routes).Some? <==> forall i :: 0 <= i < |routes| ==> "name" in routes[i].tags
  {
    if routes != [] {
      var init := routes[..|routes| - 1];
      KeptDefined(init);
      assert forall i :: 0 <= i < |init| ==> init[i] == routes[i];
    }
  }

  /** A route survives exactly when it was there and passes the filter. */
  lemma {:induction false} KeptMembers(routes: seq<RelationRecord>)
    requires Kept(routes).Some?
    ensures forall x :: x in Kept(routes).value <==> x in routes && FilterSubwayRoute(x) == Some(true)
  {
    if routes != [] {
      var init := routes[..|routes| - 1];
      KeptMembers(init);
      assert routes == init + [routes[|routes| - 1]];
    }
  }

  /** Filtering works piece by piece, so the survivors keep their relative order. */
  lemma {:induction false} KeptConcat(a: seq<RelationRecord>, b: seq<RelationRecord>)
    requires Kept(a).Some? && Kept(b).Some?
    ensures Kept(a + b) == Some(Kept(a).value + Kept(b).value)
    decreases |b|
  {
    if b == [] {
      assert a + b == a && Kept(a).value + [] == Kept(a).value;
    } else {
      var init := b[..|b| - 1];
      var last := b[|b| - 1];
      assert (a + b)[..|a + b| - 1] == a + init && (a + b)[|a + b| - 1] == last;
      assert Kept(init).Some? && FilterSubwayRoute(last).Some?;
      KeptConcat(a, init);
      assert Kept(a).value + Kept(init).value + (if FilterSubwayRoute(last).value then [last] else [])
          == Kept(a).value + (Kept(init).value + if FilterSubwayRoute(last).value then [last] else []);
    }
  }

  /** Cleaning twice is cleaning once. */
  lemma {:induction false} KeptIdempotent(routes: seq<RelationRecord>)
    requires Kept(routes).Some?
    ensures Kept(Kept(routes).value) == Kept(routes)
  {
    if routes != [] {
      var init := routes[..|routes| - 1];
      var last := routes[|routes| - 1];
      KeptIdempotent(init);
      var k := Kept(init).value;
      if FilterSubwayRoute(last) == Some(true) {
        assert [last][..0] == [];
        KeptConcat(k, [last]);
      } else {
        assert k + [] == k;
      }
    }
  }

  /** The parsed OSM data; the cleaner only touches its subway routes. */
  class Osm {
    var subwayRoutes: seq<RelationRecord>

    constructor (subwayRoutes: seq<RelationRecord>)
      ensures this.subwayRoutes == subwayRoutes
    {
      this.subwayRoutes := subwayRoutes;
    }

    /**
     * `metros`: the list keeps exactly the routes that pass the filter, in order. A route
     * without a name raises before the list is assigned, so it is left as it was.
     */
    method Metros() returns (ok: bool)
      modifies this
      ensures ok <==> Kept(old(subwayRoutes)).Some?
      ensures ok ==> subwayRoutes == Kept(old(subwayRoutes)).value
      ensures !ok ==> subwayRoutes == old(subwayRoutes)
    {
      var kept: seq<RelationRecord> := [];
      var i := 0;
      while i < |subwayRoutes|
        invariant 0 <= i <= |subwayRoutes|
        invariant Kept(subwayRoutes[..i]) == Some(kept)
      {
        var route := subwayRoutes[i];
        assert subwayRoutes[..i + 1][..i] == subwayRoutes[..i] && subwayRoutes[..i + 1][i] == route;
        var keep := FilterSubwayRoute(route);
        if keep.None? {
          KeptDefined(subwayRoutes);
          return false;
        }
        if keep.value {
          kept := kept + [route];
        } else {
          assert kept + [] == kept;
        }
        i := i + 1;
      }
      assert subwayRoutes[..i] == subwayRoutes;
      subwayRoutes := kept;
      ok := true;
    }
  }
}
