/** `public/js/catalogo.js`: `handleResponsivePagination`, which on a narrow window
    reloads the catalogue with six items per page. The address is reduced to its query
    parameters, in order; the `change` handler that submits the filter form is left out. */
module Catalogo {
  import opened Wrappers
  import opened Strings

  const MobileBreakpoint := 768
  const MobileLimit := 6

  /** One `name=value` pair of the query string. */
  datatype Param = Param(name: string, value: string)

  /** `searchParams.get(name)`: the value of the first pair with that name. */
  function Get(params: seq<Param>, name: string): (r: Option<string>)
    ensures r.None? <==> forall k :: 0 <= k < |params| ==> params[k].name != name
    ensures r.Some? ==> exists k :: 0 <= k < |params| && params[k] == Param(name, r.value) &&
                                     forall j :: 0 <= j < k ==> params[j].name != name
  {
    if params == [] then None
    else if params[0].name == name then Some(params[0].value)
    else
      var r := Get(params[1..], name);
      assert forall k :: 1 <= k < |params| ==> params[k] == params[1..][k - 1];
      if r.Some? then
        var k :| 0 <= k < |params[1..]| && params[1..][k] == Param(name, r.value) &&
                 forall j :: 0 <= j < k ==> params[1..][j].name != name;
        assert params[k + 1] == Param(name, r.value);
        r
      else r
  }

  /** Removes every pair with the name. */
  function Without(params: seq<Param>, name: string): (r: seq<Param>)
    ensures forall k :: 0 <= k < |r| ==> r[k].name != name && r[k] in params
  {
    if params == [] then []
    else (if params[0].name == name then [] else [params[0]]) + Without(params[1..], name)
  }

  /** `searchParams.set(name, value)`: the first pair with the name takes the value and the
      later ones are removed; without one, the pair is appended. */
  function Set(params: seq<Param>, name: string, value: string): (r: seq<Param>)
    ensures Param(name, value) in r
    ensures forall k :: 0 <= k < |r| ==> r[k] == Param(name, value) || (r[k] in params && r[k].name != name)
    ensures forall i, j :: 0 <= i < j < |r| && r[i].name == name ==> r[j].name != name
  {
    if params == [] then [Param(name, value)]
    else if params[0].name == name then [Param(name, value)] + Without(params[1..], name)
    else [params[0]] + Set(params[1..], name, value)
  }

  /** After `set`, `get` answers the value set. */
  lemma {:induction false} GetSet(params: seq<Param>, name: string, value: string)
    ensures Get(Set(params, name, value), name) == Some(value)
  {
    if params != [] && params[0].name != name {
      GetSet(params[1..], name, value);
      assert Set(params, name, value)[1..] == Set(params[1..], name, value);
    }
  }

  /** `set` leaves the value of every other name as it was. */
  lemma {:induction false} GetSetOther(params: seq<Param>, name: string, value: string, other: string)
    requires other != name
    ensures Get(Set(params, name, value), other) == Get(params, other)
  {
    if params == [] {
      assert Get([Param(name, value)][1..], other) == None;
    } else if params[0].name == name {
      var r := Set(params, name, value);
      assert r[1..] == Without(params[1..], name);
      GetWithout(params[1..], name, other);
    } else {
      var r := Set(params, name, value);
      assert r[1..] == Set(params[1..], name, value);
      GetSetOther(params[1..], name, value, other);
    }
  }

  lemma {:induction false} GetWithout(params: seq<Param>, name: string, other: string)
    requires other != name
    ensures Get(Without(params, name), other) == Get(params, other)
  {
    if params != [] {
      var r := Without(params, name);
      if params[0].name == name {
        assert r == Without(params[1..], name);
      } else {
        assert r[0] == params[0] && r[1..] == Without(params[1..], name);
      }
      GetWithout(params[1..], name, other);
    }
  }

  /** The condition of `handleResponsivePagination`: a window narrower than 768 pixels
      whose `limit` is missing, empty or not `"6"`. */
  predicate DebeRedirigir(innerWidth: int, params: seq<Param>)
    ensures DebeRedirigir(innerWidth, params) ==> innerWidth < MobileBreakpoint && Get(params, "limit") != Some("6")
  {
    assert NatToDecimal(MobileLimit) == "6";
    var currentLimit := Get(params, "limit");
    innerWidth < MobileBreakpoint && (!Truthy(currentLimit) || currentLimit.value != NatToDecimal(MobileLimit))
  }

  /** The rule never redirects a wide window, nor a narrow one already at `limit=6`, and
      does redirect a narrow one in every other case. */
  lemma DebeRedirigirCasos(innerWidth: int, params: seq<Param>)
    ensures innerWidth >= MobileBreakpoint ==> !DebeRedirigir(innerWidth, params)
    ensures Get(params, "limit") == Some("6") ==> !DebeRedirigir(innerWidth, params)
    ensures innerWidth < MobileBreakpoint && Get(params, "limit") != Some("6") ==> DebeRedirigir(innerWidth, params)
  {
    assert NatToDecimal(MobileLimit) == "6";
  }

  /** The page after the redirect does not redirect again, whatever its width: no reload
      loop. The other parameters keep their values. */
  lemma SinBucle(innerWidth: int, params: seq<Param>)
    ensures !DebeRedirigir(innerWidth, Set(params, "limit", NatToDecimal(MobileLimit)))
    ensures forall other :: other != "limit" ==>
              Get(Set(params, "limit", NatToDecimal(MobileLimit)), other) == Get(params, other)
  {
    GetSet(params, "limit", NatToDecimal(MobileLimit));
    forall other | other != "limit"
      ensures Get(Set(params, "limit", NatToDecimal(MobileLimit)), other) == Get(params, other)
    {
      GetSetOther(params, "limit", NatToDecimal(MobileLimit), other);
    }
  }

  /** The browser window: its width and the query of the address it shows. */
  class Ventana {
    var innerWidth: int
    var query: seq<Param>

    constructor (innerWidth: int, query: seq<Param>)
      ensures this.innerWidth == innerWidth && this.query == query
    {
      this.innerWidth := innerWidth;
      this.query := query;
    }

    /** `handleResponsivePagination`: when the rule says so, sets `limit=6` and navigates
        to the new address; otherwise nothing happens. */
    method HandleResponsivePagination() returns (navega: bool)
      modifies this
      ensures navega <==> DebeRedirigir(old(innerWidth), old(query))
      ensures navega ==> query == Set(old(query), "limit", NatToDecimal(MobileLimit))
      ensures !navega ==> query == old(query)
      ensures innerWidth == old(innerWidth)
      ensures !DebeRedirigir(innerWidth, query)
    {
      navega := DebeRedirigir(innerWidth, query);
      if navega {
        SinBucle(innerWidth, query);
        query := Set(query, "limit", NatToDecimal(MobileLimit));
      }
    }
  }
}
