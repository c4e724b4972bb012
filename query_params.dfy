/**
 * The page's query string as `setQueryParam` reads and writes it: a
 * URLSearchParams list of name-value pairs, the browser location it comes
 * from, and the history entries `pushState` adds.
 */
module QueryParams {
  import opened Wrappers

  /** A URLSearchParams object's name-value pairs, in order; a name may repeat. */
  type Params = seq<(string, string)>

  /** The pairs called `name`, in their order. */
  function Named(ps: Params, name: string): (r: Params)
    ensures forall i :: 0 <= i < |r| ==> r[i].0 == name
  {
    if ps == [] then []
    else (if ps[0].0 == name then [ps[0]] else []) + Named(ps[1..], name)
  }

  /** `params.get(name)`: the value of the first pair called `name`, if any. */
  function Get(ps: Params, name: string): (v: Option<string>)
    ensures v.None? <==> Named(ps, name) == []
    ensures v.Some? ==> Named(ps, name)[0] == (name, v.value)
  {
    if ps == [] then None
    else if ps[0].0 == name then Some(ps[0].1)
    else Get(ps[1..], name)
  }

  /** `params.delete(name)`: every pair called `name` is removed. */
  function Deleted(ps: Params, name: string): (r: Params)
    ensures forall other :: Named(r, other) == if other == name then [] else Named(ps, other)
  {
    if ps == [] then []
    else
      var tail := Deleted(ps[1..], name);
      var r := (if ps[0].0 == name then [] else [ps[0]]) + tail;
      assert forall other :: Named(r, other) == if other == name then [] else Named(ps, other) by {
        forall other ensures Named(r, other) == if other == name then [] else Named(ps, other) {
          NamedAppend(if ps[0].0 == name then [] else [ps[0]], tail, other);
        }
      }
      r
  }

  /**
   * `params.set(name, value)`: the first pair called `name` takes the value
   * and the others are removed; with no such pair, one is appended.
   */
  function WithValue(ps: Params, name: string, value: string): (r: Params)
    ensures forall other :: Named(r, other) == if other == name then [(name, value)] else Named(ps, other)
  {
    if ps == [] then [(name, value)]
    else
      var tail := if ps[0].0 == name then Deleted(ps[1..], name) else WithValue(ps[1..], name, value);
      var r := [if ps[0].0 == name then (name, value) else ps[0]] + tail;
      assert forall other :: Named(r, other) == if other == name then [(name, value)] else Named(ps, other) by {
        forall other ensures Named(r, other) == if other == name then [(name, value)] else Named(ps, other) {
          NamedAppend([if ps[0].0 == name then (name, value) else ps[0]], tail, other);
        }
      }
      r
  }

  lemma {:induction false} NamedAppend(a: Params, b: Params, name: string)
    ensures Named(a + b, name) == Named(a, name) + Named(b, name)
  {
    if a != [] {
      assert (a + b)[1..] == a[1..] + b;
      NamedAppend(a[1..], b, name);
    } else {
      assert a + b == b;
    }
  }

  /**
   * The query `setQueryParam(name, value)` leaves behind: a falsy (empty)
   * value removes `name` altogether, any other value becomes its only value;
   * the pairs of every other name keep their values and order.
   */
  function Updated(ps: Params, name: string, value: string): (r: Params)
    ensures Get(r, name) == if value == "" then None else Some(value)
    ensures Named(r, name) == if value == "" then [] else [(name, value)]
    ensures forall other :: other != name ==> Named(r, other) == Named(ps, other)
  {
    if value == "" then Deleted(ps, name) else WithValue(ps, name, value)
  }

  /** One pair as `toString` writes it (percent-encoding is not modelled). */
  function PairText(p: (string, string)): string {
    p.0 + "=" + p.1
  }

  /** `params.toString()`: the pairs joined by `&`; empty exactly when there are no pairs. */
  function Serialize(ps: Params): (s: string)
    ensures s == "" <==> ps == []
  {
    if ps == [] then ""
    else if |ps| == 1 then PairText(ps[0])
    else PairText(ps[0]) + "&" + Serialize(ps[1..])
  }

  /** The URL `setQueryParam` pushes: the path, then `?` and the query only when the query is not empty. */
  function UrlOf(pathname: string, ps: Params): (url: string)
    ensures ps == [] ==> url == pathname
    ensures ps != [] ==> url == pathname + "?" + Serialize(ps)
  {
    var search := Serialize(ps);
    pathname + (if search != "" then "?" + search else "")
  }

  /** A URLSearchParams object, changed in place by `delete` and `set`. */
  class SearchParams {
    var list: Params

    constructor (init: Params)
      ensures list == init
    {
      list := init;
    }

    method Delete(name: string)
      modifies this
      ensures list == Deleted(old(list), name)
    {
      list := Deleted(list, name);
    }

    method Set(name: string, value: string)
      modifies this
      ensures list == WithValue(old(list), name, value)
    {
      list := WithValue(list, name, value);
    }

    /** `toString()`: the text after `?` in the URL, empty exactly when no pair is left. */
    function ToString(): (s: string)
      reads this
      ensures s == Serialize(list)
      ensures s == "" <==> list == []
    {
      Serialize(list)
    }
  }

  /** The window's location (its path and parsed query) and its session history. */
  class Browser {
    var pathname: string
    var params: Params
    var history: seq<string>

    constructor (pathname: string, params: Params)
      ensures this.pathname == pathname && this.params == params && history == []
    {
      this.pathname, this.params, history := pathname, params, [];
    }

    /** `setQueryParam(name, value)`: rewrite one parameter and push the new URL without reloading. */
    method SetQueryParam(name: string, value: string)
      modifies this
      ensures params == Updated(old(params), name, value)
      ensures history == old(history) + [UrlOf(pathname, params)]
      ensures pathname == old(pathname)
    {
      var search := new SearchParams(params);
      if value == "" {
        search.Delete(name);
      } else {
        search.Set(name, value);
      }
      var newSearch := search.ToString();
      var newUrl := pathname + (if newSearch != "" then "?" + newSearch else "");
      history := history + [newUrl];
      params := search.list;
    }
  }
}
