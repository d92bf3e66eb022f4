/** The bike-paths page (src/pages/BikePathsPage.jsx): the route filter
    buttons, the effect that resets a filter naming no route of the
    current language, and the difficulty badges. The routes and the
    difficulty labels come from the translation table of the current
    language and are given as parameters. */
module BikePaths {
  import opened Wrappers
  import opened Text
  import opened Seqs

  /** A route's id as the translation table holds it: a JavaScript number
      (an integer) or a string. */
  datatype RouteId = Num(n: int) | Str(s: string)

  /** A route as far as filtering reads it: its id and the name and
      colour of its button. */
  datatype Route = Route(id: RouteId, name: string, color: string)

  /** The filter value of the "all routes" button. */
  const All: string := "all"

  // ---------------------------------------------------------------------
  // parseInt(filter, 10)

  /** The unsigned part after an optional sign. */
  function Unsigned(s: string): (u: string)
    ensures |u| <= |s|
  {
    if s != [] && (s[0] == '-' || s[0] == '+') then s[1..] else s
  }

  /** JavaScript `parseInt(s, 10)`: leading white space is skipped, an
      optional sign read, then the longest run of digits; None stands for
      NaN, the result when there is no digit. */
  function ParseIntJs(s: string): (r: Option<int>)
    ensures r.Some? <==> LeadingDigits(Unsigned(TrimStart(s, IsJsSpace))) != []
  {
    ParseSignedJs(TrimStart(s, IsJsSpace))
  }

  /** parseInt after the white space. */
  function ParseSignedJs(u: string): (r: Option<int>)
    ensures r.Some? <==> LeadingDigits(Unsigned(u)) != []
  {
    var digits := LeadingDigits(Unsigned(u));
    if digits == [] then None
    else
      var magnitude: int := DigitsValue(digits);
      Some(if u != [] && u[0] == '-' then -magnitude else magnitude)
  }

  /** A numeral that starts with something other than white space. */
  lemma NoLeadingSpace(s: string)
    requires s != [] && (s[0] == '-' || IsDigit(s[0]))
    ensures ParseIntJs(s) == ParseSignedJs(s)
  {
    assert !IsJsSpace(s[0]);
  }

  /** parseInt reads the leading numeral and ignores what follows it. */
  lemma ParseIntOfPrefix(digits: string, rest: string)
    requires digits != [] && AllDigits(digits)
    requires rest != [] ==> !IsDigit(rest[0])
    ensures ParseIntJs(digits + rest) == Some(DigitsValue(digits) as int)
  {
    var s := digits + rest;
    assert s[0] == digits[0];
    NoLeadingSpace(s);
    assert Unsigned(s) == s;
    LeadingDigitsOf(digits, rest);
  }

  /** A leading minus sign negates the numeral. */
  lemma ParseIntOfNegatedPrefix(digits: string, rest: string)
    requires digits != [] && AllDigits(digits)
    requires rest != [] ==> !IsDigit(rest[0])
    ensures ParseIntJs("-" + (digits + rest)) == Some(-(DigitsValue(digits) as int))
  {
    LeadingDigitsOf(digits, rest);
    NegatedParse(digits + rest, digits);
  }

  lemma NegatedParse(x: string, digits: string)
    requires LeadingDigits(x) == digits && digits != []
    ensures ParseIntJs("-" + x) == Some(-(DigitsValue(digits) as int))
  {
    NegatedNumeral(x);
  }

  lemma NegatedNumeral(x: string)
    ensures var t := "-" + x; ParseIntJs(t) == ParseSignedJs(t) && Unsigned(t) == x
  {
    var t := "-" + x;
    assert t[0] == '-';
    NoLeadingSpace(t);
  }

  /** `route.id.toString()` parses back to the id. */
  lemma ParseIntOfToString(n: int)
    ensures ParseIntJs(IntToString(n)) == Some(n)
  {
    var m: nat := if n < 0 then -n else n;
    DigitsValueOfNatToString(m);
    ParseIntOfPrefix(NatToString(m), "");
    ParseIntOfNegatedPrefix(NatToString(m), "");
    assert NatToString(m) + "" == NatToString(m);
    assert "-" + (NatToString(m) + "") == "-" + NatToString(m);
  }

  /** The word "all" is no numeral. */
  lemma AllIsNaN()
    ensures ParseIntJs(All) == None
  {
    assert !IsJsSpace(All[0]) && !IsDigit(All[0]);
  }

  // ---------------------------------------------------------------------
  // filteredRoutes and the reset effect

  /** `route.id.toString()`: the numeral of a number, a string itself. */
  function IdText(id: RouteId): (t: string)
    ensures id.Num? ==> ParseIntJs(t) == Some(id.n)
    ensures id.Str? ==> t == id.s
  {
    match id
    case Num(n) => ParseIntOfToString(n); IntToString(n)
    case Str(s) => s
  }

  /** The test `route.id === parseInt(filter, 10)`: strict equality of a
      number with the parsed number; NaN equals nothing, and a string id
      never equals a number. */
  predicate IdMatches(filter: string, id: RouteId)
  {
    id.Num? && ParseIntJs(filter) == Some(id.n)
  }

  /** The filter's test as a function of the route. */
  function HasId(filter: string): Route -> bool
  {
    (r: Route) => IdMatches(filter, r.id)
  }

  /** `filteredRoutes`: every route for "all", otherwise the routes whose
      id the filter parses to, in their order. */
  function FilteredRoutes(filter: string, routes: seq<Route>): (r: seq<Route>)
    ensures filter == All ==> r == routes
    ensures IsSubsequence(r, routes)
    ensures filter != All ==> forall i :: 0 <= i < |r| ==> IdMatches(filter, r[i].id)
    ensures filter != All ==>
      forall i :: 0 <= i < |routes| && IdMatches(filter, routes[i].id) ==> routes[i] in r
  {
    if filter == All then
      assert IsSubsequence(routes, routes) by {
        FilterAllKept(routes, (x: Route) => true);
        FilterIsSubsequence(routes, (x: Route) => true);
      }
      routes
    else
      FilterIsSubsequence(routes, HasId(filter));
      Filter(routes, HasId(filter))
  }

  /** `routes.some((route) => route.id === parseInt(filter, 10))`. */
  predicate NamesRoute(filter: string, routes: seq<Route>)
  {
    exists i :: 0 <= i < |routes| && IdMatches(filter, routes[i].id)
  }

  /** The effect on `filterRoute`: a filter that is neither "all" nor the
      id of a route is reset to "all"; any other filter is kept. */
  function KeepFilterValid(filter: string, routes: seq<Route>): (next: string)
    ensures next == filter <==> filter == All || NamesRoute(filter, routes)
    ensures next != filter ==> next == All
  {
    if filter != All && !NamesRoute(filter, routes) then All else filter
  }

  /** The effect settles at once: running it again changes nothing. */
  lemma KeepFilterValidIdempotent(filter: string, routes: seq<Route>)
    ensures KeepFilterValid(KeepFilterValid(filter, routes), routes) == KeepFilterValid(filter, routes)
  {
  }

  /** After the effect, a page with routes never shows an empty list: the
      filter is "all", or it names a route, which then is shown. */
  lemma KeptFilterShowsRoutes(filter: string, routes: seq<Route>)
    requires routes != []
    ensures FilteredRoutes(KeepFilterValid(filter, routes), routes) != []
  {
    var next := KeepFilterValid(filter, routes);
    if next != All {
      var i :| 0 <= i < |routes| && IdMatches(next, routes[i].id);
      assert routes[i] in FilteredRoutes(next, routes);
    }
  }

  /** The button of a route with a number id sets the filter to that
      number as text: the effect keeps that filter, and the page shows that
      route and only routes with its id. */
  lemma SelectRouteShowsIt(route: Route, routes: seq<Route>)
    requires route in routes
    ensures route.id.Num? ==> KeepFilterValid(IdText(route.id), routes) == IdText(route.id)
    ensures route.id.Num? ==> route in FilteredRoutes(IdText(route.id), routes)
    ensures route.id.Num? ==> forall r :: r in FilteredRoutes(IdText(route.id), routes) ==> r.id == route.id
  {
    if route.id.Num? {
      var f := IdText(route.id);
      var i :| 0 <= i < |routes| && routes[i] == route;
      assert f != All by {
        assert f == All ==> ParseIntJs(f) == None by { AllIsNaN(); }
      }
      assert IdMatches(f, routes[i].id);
    }
  }

  /** The button of a route with a string id that does not start with a
      numeral (and is not "all") sets a filter no id equals: the list is
      empty until the effect resets the filter to "all", which then shows
      every route. Such a route can never be selected. */
  lemma SelectTextRouteResets(route: Route, routes: seq<Route>)
    requires route.id.Str? && ParseIntJs(route.id.s) == None && route.id.s != All
    ensures FilteredRoutes(IdText(route.id), routes) == []
    ensures KeepFilterValid(IdText(route.id), routes) == All
    ensures FilteredRoutes(KeepFilterValid(IdText(route.id), routes), routes) == routes
  {
  }

  /** The slug "tour-etang-thau" is no numeral, so a route with that id
      is reset away at once. */
  lemma SlugIdResets(routes: seq<Route>, name: string, color: string)
    ensures var route := Route(Str("tour-etang-thau"), name, color);
      && KeepFilterValid(IdText(route.id), routes) == All
      && FilteredRoutes(IdText(route.id), routes) == []
  {
    var slug := "tour-etang-thau";
    assert !IsJsSpace(slug[0]) && slug[0] != '-' && slug[0] != '+' && !IsDigit(slug[0]);
    assert LeadingDigits(slug) == [];
    SelectTextRouteResets(Route(Str(slug), name, color), routes);
  }

  /** The filter state of the page (`filterRoute`). */
  class RouteFilter {
    var filter: string

    /** `useState('all')`. */
    constructor()
      ensures filter == All
    {
      filter := All;
    }

    /** The "all routes" button. */
    method ShowAll()
      modifies this
      ensures filter == All
    {
      filter := All;
    }

    /** A route's button: `setFilterRoute(route.id.toString())`. */
    method Select(route: Route)
      modifies this
      ensures filter == IdText(route.id)
    {
      filter := IdText(route.id);
    }

    /** The effect, run when the filter or the routes change. */
    method KeepValid(routes: seq<Route>)
      modifies this
      ensures filter == KeepFilterValid(old(filter), routes)
      ensures filter == All || NamesRoute(filter, routes)
    {
      if filter != All && !NamesRoute(filter, routes) {
        filter := All;
      }
    }

    /** The routes the page lists. */
    function Shown(routes: seq<Route>): (r: seq<Route>)
      reads this
      ensures IsSubsequence(r, routes)
    {
      FilteredRoutes(filter, routes)
    }
  }

  // ---------------------------------------------------------------------
  // Difficulty badges

  /** `getDifficultyLabel`: the text of the difficulty in the current
      language's table, or the difficulty itself when the table has none
      (or an empty one). */
  function DifficultyLabel(labels: map<string, string>, difficulty: string): (r: string)
    ensures difficulty in labels && labels[difficulty] != "" ==> r == labels[difficulty]
    ensures difficulty !in labels || labels[difficulty] == "" ==> r == difficulty
  {
    if difficulty in labels && labels[difficulty] != "" then labels[difficulty] else difficulty
  }

  /** A label is empty only for an empty difficulty. */
  lemma DifficultyLabelNonEmpty(labels: map<string, string>, difficulty: string)
    requires difficulty != ""
    ensures DifficultyLabel(labels, difficulty) != ""
  {
  }

  const VeryEasyColor: string := "bg-green-100 text-green-700"
  const EasyColor: string := "bg-blue-100 text-blue-700"
  const ModerateColor: string := "bg-orange-100 text-orange-700"
  const DefaultColor: string := "bg-gray-100 text-gray-700"

  /** The three known difficulties. */
  predicate IsKnownDifficulty(d: string)
  {
    d == "veryEasy" || d == "easy" || d == "moderate"
  }

  /** `getDifficultyColor`: green, blue and orange for the known
      difficulties, gray for everything else. */
  function DifficultyColor(difficulty: string): (c: string)
    ensures c == DefaultColor <==> !IsKnownDifficulty(difficulty)
    ensures c == VeryEasyColor || c == EasyColor || c == ModerateColor || c == DefaultColor
  {
    match difficulty
    case "veryEasy" => VeryEasyColor
    case "easy" => EasyColor
    case "moderate" => ModerateColor
    case _ => DefaultColor
  }

  /** Different known difficulties get different colours. */
  lemma DifficultyColorsDiffer(a: string, b: string)
    requires IsKnownDifficulty(a) && IsKnownDifficulty(b) && a != b
    ensures DifficultyColor(a) != DifficultyColor(b)
  {
  }
}
