/** The page-number control of src/components/admin/PaginationControls.tsx:
    the buttons it renders and the query string a click navigates to. */
module Pagination {
  import opened Common

  /** One `name=value` pair of a query string. */
  datatype Param = Param(name: string, value: string)

  /** A rendered button: the page it goes to and whether it is disabled. */
  datatype Step = Step(target: int, disabled: bool)

  /** A numbered button and whether it is highlighted as the current page. */
  datatype PageButton = PageButton(page: int, current: bool)

  datatype View = View(prev: Step, pages: seq<PageButton>, next: Step)

  // ---------------------------------------------------------------------
  // Rendering
  // ---------------------------------------------------------------------

  /** `Array.from({ length: n }, (_, i) => i + 1)`. */
  function PageList(n: int): (r: seq<int>)
    ensures |r| == if n < 0 then 0 else n
    ensures forall i :: 0 <= i < |r| ==> r[i] == i + 1
  {
    if n <= 0 then [] else PageList(n - 1) + [n]
  }

  /** The list is `1..n` in ascending order, so it names every page once. */
  lemma PageListIsRange(n: int)
    ensures forall p :: p in PageList(n) <==> 1 <= p <= n
    ensures forall i, j :: 0 <= i < j < |PageList(n)| ==> PageList(n)[i] < PageList(n)[j]
  {
    var r := PageList(n);
    forall p | 1 <= p <= n ensures p in r {
      assert r[p - 1] == p;
    }
  }

  /** The component: nothing for a single page (or none); otherwise the
      previous button, the numbered buttons and the next button. */
  function Render(hasNextPage: bool, hasPrevPage: bool, totalPages: int, currentPage: int): (r: Option<View>)
    ensures r.None? <==> totalPages <= 1
    ensures r.Some? ==> r.value.prev == Step(currentPage - 1, !hasPrevPage)
    ensures r.Some? ==> r.value.next == Step(currentPage + 1, !hasNextPage)
    ensures r.Some? ==> |r.value.pages| == totalPages
    ensures r.Some? ==> forall i :: 0 <= i < |r.value.pages| ==>
              r.value.pages[i].page == i + 1
              && (r.value.pages[i].current <==> i + 1 == currentPage)
  {
    if totalPages <= 1 then None
    else
      var pages := PageList(totalPages);
      Some(View(Step(currentPage - 1, !hasPrevPage),
                seq(|pages|, i requires 0 <= i < |pages| => PageButton(pages[i], pages[i] == currentPage)),
                Step(currentPage + 1, !hasNextPage)))
  }

  /** A current page within range is highlighted on exactly one button;
      one out of range on none. */
  lemma OneHighlighted(hasNextPage: bool, hasPrevPage: bool, totalPages: int, currentPage: int)
    requires totalPages > 1
    ensures var v := Render(hasNextPage, hasPrevPage, totalPages, currentPage).value;
            && (1 <= currentPage <= totalPages ==>
                  v.pages[currentPage - 1].current
                  && forall i :: 0 <= i < |v.pages| && i != currentPage - 1 ==> !v.pages[i].current)
            && (!(1 <= currentPage <= totalPages) ==> forall i :: 0 <= i < |v.pages| ==> !v.pages[i].current)
  {
  }

  // ---------------------------------------------------------------------
  // The query string
  // ---------------------------------------------------------------------

  /** The position of the first pair with the name, if any. */
  function FirstIndex(ps: seq<Param>, name: string): (r: Option<nat>)
    ensures r.None? <==> forall i :: 0 <= i < |ps| ==> ps[i].name != name
    ensures r.Some? ==> r.value < |ps| && ps[r.value].name == name
    ensures r.Some? ==> forall i :: 0 <= i < r.value ==> ps[i].name != name
  {
    if ps == [] then None
    else if ps[0].name == name then Some(0)
    else match FirstIndex(ps[1..], name)
      case None => None
      case Some(k) => Some(k + 1)
  }

  /** The pairs with other names, in order. */
  function Others(ps: seq<Param>, name: string): (r: seq<Param>)
    ensures forall i :: 0 <= i < |r| ==> r[i].name != name
    ensures (forall i :: 0 <= i < |ps| ==> ps[i].name != name) ==> r == ps
  {
    if ps == [] then []
    else if ps[0].name == name then Others(ps[1..], name)
    else [ps[0]] + Others(ps[1..], name)
  }

  lemma {:induction false} OthersAppend(a: seq<Param>, b: seq<Param>, name: string)
    ensures Others(a + b, name) == Others(a, name) + Others(b, name)
    decreases |a|
  {
    if a == [] {
      assert a + b == b;
    } else {
      assert (a + b)[1..] == a[1..] + b;
      OthersAppend(a[1..], b, name);
    }
  }

  /** A pair stays, in its place, exactly when it has another name. */
  lemma OthersFilter(a: seq<Param>, p: Param, b: seq<Param>, name: string)
    ensures Others(a + [p] + b, name) == Others(a, name) + (if p.name == name then [] else [p]) + Others(b, name)
  {
    OthersAppend(a + [p], b, name);
    OthersAppend(a, [p], name);
    assert [p][1..] == [];
  }

  /** The pairs kept are exactly the pairs with another name. */
  lemma {:induction false} OthersMembers(ps: seq<Param>, name: string, p: Param)
    ensures p in Others(ps, name) <==> p in ps && p.name != name
    decreases |ps|
  {
    if ps != [] {
      OthersMembers(ps[1..], name, p);
      assert ps == [ps[0]] + ps[1..];
    }
  }

  /** `URLSearchParams.prototype.set` as the URL standard defines it: the
      first pair with the name gets the value and the later ones are
      removed; without one, the pair is appended. */
  function SetParam(ps: seq<Param>, name: string, value: string): (r: seq<Param>)
  {
    match FirstIndex(ps, name)
    case None => ps + [Param(name, value)]
    case Some(k) => ps[..k] + [Param(name, value)] + Others(ps[k + 1..], name)
  }

  /** The value a reader of the query string sees for a name (`get`). */
  function Get(ps: seq<Param>, name: string): (r: Option<string>)
    ensures r.None? <==> FirstIndex(ps, name).None?
    ensures r.Some? ==> r.value == ps[FirstIndex(ps, name).value].value
  {
    match FirstIndex(ps, name)
    case None => None
    case Some(k) => Some(ps[k].value)
  }

  /** The pairs before the first with the name, then the pairs after it
      without the name: these are the pairs with other names. */
  lemma OthersAroundFirst(ps: seq<Param>, name: string, k: nat)
    requires FirstIndex(ps, name) == Some(k)
    ensures Others(ps, name) == ps[..k] + Others(ps[k + 1..], name)
  {
    assert ps == ps[..k] + ([ps[k]] + ps[k + 1..]);
    OthersAppend(ps[..k], [ps[k]] + ps[k + 1..], name);
    OthersAppend([ps[k]], ps[k + 1..], name);
    assert Others([ps[k]], name) == [];
  }

  /** `set` splits the pairs into those before the position of the name,
      the new pair, and the later pairs without the name. */
  lemma SetShape(ps: seq<Param>, name: string, value: string) returns (pre: seq<Param>, rest: seq<Param>)
    ensures SetParam(ps, name, value) == pre + ([Param(name, value)] + rest)
    ensures Others(ps, name) == pre + rest
    ensures forall i :: 0 <= i < |pre| ==> pre[i].name != name
    ensures forall i :: 0 <= i < |rest| ==> rest[i].name != name
  {
    match FirstIndex(ps, name)
    case None =>
      pre, rest := ps, [];
    case Some(k) =>
      pre, rest := ps[..k], Others(ps[k + 1..], name);
      OthersAroundFirst(ps, name, k);
  }

  /** After `set` the name has exactly the one pair, with the new value, and
      the pairs with other names are the old ones in their old order. */
  lemma SetReplaces(ps: seq<Param>, name: string, value: string)
    ensures Get(SetParam(ps, name, value), name) == Some(value)
    ensures |SetParam(ps, name, value)| - |Others(SetParam(ps, name, value), name)| == 1
    ensures Others(SetParam(ps, name, value), name) == Others(ps, name)
  {
    var p := Param(name, value);
    var pre, rest := SetShape(ps, name, value);
    OthersAppend(pre, [p] + rest, name);
    OthersAppend([p], rest, name);
    assert Others([p], name) == [];
    FirstIsNew(pre, [p] + rest, name);
  }

  /** The first pair with a name is the first one after a prefix without it. */
  lemma FirstIsNew(a: seq<Param>, b: seq<Param>, name: string)
    requires forall i :: 0 <= i < |a| ==> a[i].name != name
    requires b != [] && b[0].name == name
    ensures FirstIndex(a + b, name) == Some(|a|)
  {
    var s := a + b;
    assert s[|a|] == b[0];
    assert forall i :: 0 <= i < |a| ==> s[i] == a[i];
  }

  /** Setting the same value twice is the same as setting it once. */
  lemma SetIdempotent(ps: seq<Param>, name: string, value: string)
    ensures SetParam(SetParam(ps, name, value), name, value) == SetParam(ps, name, value)
  {
    var pre, rest := SetShape(ps, name, value);
    SetOnShape(pre, rest, name, value);
  }

  /** `set` leaves alone pairs already in the shape it produces. */
  lemma SetOnShape(pre: seq<Param>, rest: seq<Param>, name: string, value: string)
    requires forall i :: 0 <= i < |pre| ==> pre[i].name != name
    requires forall i :: 0 <= i < |rest| ==> rest[i].name != name
    ensures SetParam(pre + ([Param(name, value)] + rest), name, value) == pre + ([Param(name, value)] + rest)
  {
    var p := Param(name, value);
    var r := pre + ([p] + rest);
    Around(pre, p, rest);
    SetFoundEnd(r, |pre|, name, value);
    assert Others(rest, name) == rest;
  }

  /** A `URLSearchParams` object. */
  class SearchParams {
    var pairs: seq<Param>

    /** `new URLSearchParams(init)` copies the pairs. */
    constructor (init: seq<Param>)
      ensures pairs == init
    {
      pairs := init;
    }

    /** `set(name, value)`: the pairs up to the first with the name are
        kept, that one gets the new value, and the later ones with the name
        are dropped; without one, the pair is appended. */
    method Set(name: string, value: string)
      modifies this
      ensures pairs == SetParam(old(pairs), name, value)
    {
      var ps := pairs;
      var k := FindName(ps, name);
      if k == |ps| {
        SetAbsent(ps, name, value);
        pairs := ps + [Param(name, value)];
      } else {
        var kept := DropName(ps, k + 1, name);
        SetFoundEnd(ps, k, name, value);
        pairs := ps[..k] + [Param(name, value)] + kept;
      }
    }
  }

  /** The position of the first pair with the name, or the length when there
      is none. */
  method FindName(ps: seq<Param>, name: string) returns (k: nat)
    ensures k <= |ps|
    ensures forall j :: 0 <= j < k ==> ps[j].name != name
    ensures k < |ps| ==> ps[k].name == name
  {
    k := 0;
    while k < |ps| && ps[k].name != name
      invariant 0 <= k <= |ps|
      invariant forall j :: 0 <= j < k ==> ps[j].name != name
    {
      k := k + 1;
    }
  }

  /** The pairs from `from` on without the name, in one pass. */
  method DropName(ps: seq<Param>, from: nat, name: string) returns (kept: seq<Param>)
    requires from <= |ps|
    ensures kept == Others(ps[from..], name)
  {
    kept := [];
    var i := from;
    while i < |ps|
      invariant from <= i <= |ps|
      invariant kept == Others(ps[from..i], name)
    {
      DropStep(ps, from, i, name);
      if ps[i].name != name {
        kept := kept + [ps[i]];
      }
      i := i + 1;
    }
    assert ps[from..i] == ps[from..];
  }

  /** The pieces of a sequence split around one element. */
  lemma Around(pre: seq<Param>, p: Param, rest: seq<Param>)
    ensures |pre + ([p] + rest)| == |pre| + 1 + |rest|
    ensures forall j :: 0 <= j < |pre| ==> (pre + ([p] + rest))[j] == pre[j]
    ensures (pre + ([p] + rest))[|pre|] == p
    ensures (pre + ([p] + rest))[..|pre|] == pre
    ensures (pre + ([p] + rest))[|pre| + 1..|pre + ([p] + rest)|] == rest
    ensures pre + [p] + rest == pre + ([p] + rest)
  {
    var r := pre + ([p] + rest);
    assert r[..|pre|] == pre;
    assert r[|pre| + 1..|r|] == rest;
  }

  /** Without a pair of the name, `set` appends one. */
  lemma SetAbsent(ps: seq<Param>, name: string, value: string)
    requires forall j :: 0 <= j < |ps| ==> ps[j].name != name
    ensures SetParam(ps, name, value) == ps + [Param(name, value)]
  {
  }

  /** The result of `Set`'s pass when the name was found at `k`. */
  lemma SetFoundEnd(ps: seq<Param>, k: nat, name: string, value: string)
    requires k < |ps| && ps[k].name == name
    requires forall j :: 0 <= j < k ==> ps[j].name != name
    ensures SetParam(ps, name, value) == ps[..k] + [Param(name, value)] + Others(ps[k + 1..|ps|], name)
  {
    FirstIsNew(ps[..k], ps[k..], name);
    assert ps[..k] + ps[k..] == ps;
    assert ps[k + 1..|ps|] == ps[k + 1..];
  }

  /** One step of `DropName`'s pass: the pair is kept unless it has the
      name. */
  lemma DropStep(ps: seq<Param>, from: nat, i: nat, name: string)
    requires from <= i < |ps|
    ensures Others(ps[from..i + 1], name)
            == Others(ps[from..i], name) + (if ps[i].name == name then [] else [ps[i]])
  {
    assert ps[from..i + 1] == ps[from..i] + [ps[i]];
    OthersAppend(ps[from..i], [ps[i]], name);
  }

  // ---------------------------------------------------------------------
  // Navigation
  // ---------------------------------------------------------------------

  /** The decimal digits of a non-negative number. */
  function Digits(n: nat): (s: string)
    ensures s != []
    ensures forall i :: 0 <= i < |s| ==> '0' <= s[i] <= '9'
    ensures |s| == 1 <==> n < 10
    ensures |s| == 1 || s[0] != '0'
    decreases n
  {
    if n < 10 then [(48 + n) as char] else Digits(n / 10) + [(48 + n % 10) as char]
  }

  /** `n.toString()` for an integer. */
  function IntToString(n: int): string
  {
    if n < 0 then "-" + Digits(-n) else Digits(n)
  }

  /** The value of a string of decimal digits. */
  function DigitsValue(s: string): (n: nat)
    requires forall i :: 0 <= i < |s| ==> '0' <= s[i] <= '9'
    decreases |s|
  {
    if s == [] then 0 else 10 * DigitsValue(s[..|s| - 1]) + (s[|s| - 1] as int - 48)
  }

  /** Reading the number back gives the page that was written. */
  lemma {:induction false} DigitsRoundTrip(n: nat)
    ensures DigitsValue(Digits(n)) == n
    decreases n
  {
    if n >= 10 {
      DigitsRoundTrip(n / 10);
      var s := Digits(n);
      assert s[..|s| - 1] == Digits(n / 10);
    }
  }

  /** `handlePageChange(page)`: the current query with `page` set to the
      number; the router is sent to `pathname?query`. */
  method HandlePageChange(pathname: string, current: seq<Param>, page: int)
    returns (path: string, query: seq<Param>)
    ensures path == pathname
    ensures query == SetParam(current, "page", IntToString(page))
  {
    var params := new SearchParams(current);
    params.Set("page", IntToString(page));
    path, query := pathname, params.pairs;
  }

  /** After a click on a page the query names that page, once, and keeps
      every other parameter in order. */
  lemma PageChangeKeepsOthers(current: seq<Param>, page: nat)
    ensures Get(SetParam(current, "page", IntToString(page)), "page") == Some(Digits(page))
    ensures DigitsValue(Digits(page)) == page
    ensures Others(SetParam(current, "page", IntToString(page)), "page") == Others(current, "page")
  {
    SetReplaces(current, "page", IntToString(page));
    DigitsRoundTrip(page);
  }
}
