/**
 * The destination box: a text field with a dropdown of suggested cities. An
 * empty query suggests the first eight popular destinations; any other query
 * suggests, in list order, at most six cities whose name contains the query,
 * ignoring case. The box's own state is the query text and whether the
 * dropdown is open; every change of the text is reported to the parent.
 */
module CityInput {
  import opened JsString
  import opened Wrappers

  datatype City = City(name: string, flag: string, desc: string)

  const CITIES: seq<City> := [
    City("Paris", "\U{1F1EB}\U{1F1F7}", "City of Light"),
    City("Tokyo", "\U{1F1EF}\U{1F1F5}", "Neon & Tradition"),
    City("New York", "\U{1F1FA}\U{1F1F8}", "The Big Apple"),
    City("London", "\U{1F1EC}\U{1F1E7}", "Royal Heritage"),
    City("Rome", "\U{1F1EE}\U{1F1F9}", "Eternal City"),
    City("Dubai", "\U{1F1E6}\U{1F1EA}", "City of Gold"),
    City("Barcelona", "\U{1F1EA}\U{1F1F8}", "Art & Architecture"),
    City("Bangkok", "\U{1F1F9}\U{1F1ED}", "Temple & Street Food"),
    City("Sydney", "\U{1F1E6}\U{1F1FA}", "Harbour City"),
    City("Singapore", "\U{1F1F8}\U{1F1EC}", "Garden City"),
    City("Amsterdam", "\U{1F1F3}\U{1F1F1}", "Canal City"),
    City("Istanbul", "\U{1F1F9}\U{1F1F7}", "Two Continents"),
    City("Bali", "\U{1F1EE}\U{1F1E9}", "Island of Gods"),
    City("Kyoto", "\U{1F1EF}\U{1F1F5}", "Ancient Japan"),
    City("Prague", "\U{1F1E8}\U{1F1FF}", "Golden City"),
    City("Seoul", "\U{1F1F0}\U{1F1F7}", "K-Culture Hub"),
    City("Bangalore", "\U{1F1EE}\U{1F1F3}", "Silicon Valley of India"),
    City("Mumbai", "\U{1F1EE}\U{1F1F3}", "City of Dreams")
  ]

  /** Number of suggestions for a non-empty query, and of popular destinations for an empty one. */
  const MAX_RESULTS: nat := 6
  const MAX_POPULAR: nat := 8

  // ------------------------------------------------------------ suggestions

  /** `c.name.toLowerCase().includes(query.toLowerCase())`. */
  predicate Matches(c: City, query: string) {
    Includes(Lower(c.name), Lower(query))
  }

  /** `cities.filter(...)`: the matching cities, in list order. */
  function Matching(cities: seq<City>, query: string): (r: seq<City>)
    ensures |r| <= |cities|
    ensures forall c :: c in r <==> c in cities && Matches(c, query)
  {
    if cities == [] then []
    else (if Matches(cities[0], query) then [cities[0]] else []) + Matching(cities[1..], query)
  }

  /** `a.slice(0, n)`. */
  function Take<T>(a: seq<T>, n: nat): (r: seq<T>)
    ensures |r| == if |a| < n then |a| else n
    ensures r == a[..|r|]
  {
    if |a| < n then a else a[..n]
  }

  /** `suggestions`: the cities the dropdown offers for the current query. */
  function Suggestions(query: string): (r: seq<City>)
    ensures |r| <= MAX_POPULAR
    ensures query != [] ==> |r| <= MAX_RESULTS
    ensures query == [] ==> r == CITIES[..MAX_POPULAR]
    ensures query != [] ==> forall c :: c in r ==> c in CITIES && Matches(c, query)
    ensures query != [] ==> var m := Matching(CITIES, query);
                            |r| == (if |m| < MAX_RESULTS then |m| else MAX_RESULTS) && r == m[..|r|]
  {
    if |query| > 0 then Take(Matching(CITIES, query), MAX_RESULTS) else Take(CITIES, MAX_POPULAR)
  }

  /** `a` is `b` with some elements left out, the rest in their order. */
  predicate SubseqOf<T(==)>(a: seq<T>, b: seq<T>)
    decreases |b|
  {
    if a == [] then true
    else if b == [] then false
    else (a[0] == b[0] && SubseqOf(a[1..], b[1..])) || SubseqOf(a, b[1..])
  }

  lemma {:induction false} MatchingSubseq(cities: seq<City>, query: string)
    ensures SubseqOf(Matching(cities, query), cities)
    decreases |cities|
  {
    if cities != [] {
      MatchingSubseq(cities[1..], query);
      var rest := Matching(cities[1..], query);
      if Matches(cities[0], query) {
        assert ([cities[0]] + rest)[1..] == rest;
      } else {
        assert [] + rest == rest;
      }
    }
  }

  lemma {:induction false} SubseqPrefix<T>(a: seq<T>, b: seq<T>, n: nat)
    requires SubseqOf(a, b) && n <= |a|
    ensures SubseqOf(a[..n], b)
    decreases |b|
  {
    if n > 0 {
      if a[0] == b[0] && SubseqOf(a[1..], b[1..]) {
        SubseqPrefix(a[1..], b[1..], n - 1);
        assert a[..n][1..] == a[1..][..n - 1];
      } else {
        SubseqPrefix(a, b[1..], n);
      }
    }
  }

  lemma {:induction false} SubseqSelf<T>(b: seq<T>)
    ensures SubseqOf(b, b)
    decreases |b|
  {
    if b != [] {
      SubseqSelf(b[1..]);
    }
  }

  /** Suggestions are always cities of the list, in the list's order. */
  lemma SuggestionsSubseq(query: string)
    ensures SubseqOf(Suggestions(query), CITIES)
  {
    if |query| > 0 {
      MatchingSubseq(CITIES, query);
      SubseqPrefix(Matching(CITIES, query), CITIES, |Suggestions(query)|);
    } else {
      SubseqSelf(CITIES);
      SubseqPrefix(CITIES, CITIES, MAX_POPULAR);
    }
  }

  /** When at most six cities match, every matching city is suggested. */
  lemma SuggestionsComplete(query: string)
    requires query != [] && |Matching(CITIES, query)| <= MAX_RESULTS
    ensures forall c :: c in Suggestions(query) <==> c in CITIES && Matches(c, query)
  {
  }

  /** Matching ignores case: it depends only on the lower-cased query. */
  lemma {:induction false} MatchingCaseInsensitive(cities: seq<City>, q1: string, q2: string)
    requires Lower(q1) == Lower(q2)
    ensures Matching(cities, q1) == Matching(cities, q2)
    decreases |cities|
  {
    if cities != [] {
      MatchingCaseInsensitive(cities[1..], q1, q2);
    }
  }

  /** Queries differing only in the case of their letters get the same suggestions. */
  lemma SuggestionsCaseInsensitive(q1: string, q2: string)
    requires Lower(q1) == Lower(q2)
    ensures Suggestions(q1) == Suggestions(q2)
  {
    MatchingCaseInsensitive(CITIES, q1, q2);
  }

  /** A single character is found exactly when it occurs. */
  lemma {:induction false} IncludesChar(hay: string, c: char)
    ensures Includes(hay, [c]) <==> c in hay
    decreases |hay|
  {
    if hay != [] {
      IncludesChar(hay[1..], c);
      assert hay[..1] == [hay[0]];
      assert c in hay <==> c == hay[0] || c in hay[1..] by {
        assert hay == [hay[0]] + hay[1..];
      }
    }
  }

  /** Lower-casing neither creates nor removes a space. */
  lemma LowerSpace(s: string)
    ensures ' ' in Lower(s) <==> ' ' in s
  {
    if ' ' in s {
      var i :| 0 <= i < |s| && s[i] == ' ';
      assert Lower(s)[i] == ' ';
    }
    if ' ' in Lower(s) {
      var i :| 0 <= i < |s| && Lower(s)[i] == ' ';
      assert LowerChar(s[i]) == ' ';
    }
  }

  /** A query of one space matches exactly the cities whose name holds a space. */
  lemma SpaceMatches(c: City)
    ensures Matches(c, " ") <==> ' ' in c.name
  {
    assert Lower(" ") == " " by { assert Lower(" ")[0] == ' '; }
    IncludesChar(Lower(c.name), ' ');
    LowerSpace(c.name);
  }

  /** Filtering a list in which only position `k` matches leaves that one city. */
  lemma {:induction false} MatchingOnly(cities: seq<City>, query: string, k: nat)
    requires k < |cities|
    requires forall i :: 0 <= i < |cities| ==> (Matches(cities[i], query) <==> i == k)
    ensures Matching(cities, query) == [cities[k]]
    decreases |cities|
  {
    if k == 0 {
      MatchingNone(cities[1..], query);
    } else {
      MatchingOnly(cities[1..], query, k - 1);
    }
  }

  lemma {:induction false} MatchingNone(cities: seq<City>, query: string)
    requires forall i :: 0 <= i < |cities| ==> !Matches(cities[i], query)
    ensures Matching(cities, query) == []
    decreases |cities|
  {
    if cities != [] {
      MatchingNone(cities[1..], query);
    }
  }

  /** Of all the city names, only `New York` holds a space. */
  lemma SpaceOnlyInNewYork(i: nat)
    requires i < |CITIES|
    ensures ' ' in CITIES[i].name <==> i == 2
  {
    if i == 2 {
      assert CITIES[2].name[3] == ' ';
    } else if i < 6 {
      NoSpaceBefore6(i);
    } else if i < 12 {
      NoSpaceBefore12(i);
    } else {
      NoSpaceFrom12(i);
    }
  }

  lemma NoSpaceBefore6(i: nat)
    requires i < 6 && i != 2
    ensures ' ' !in CITIES[i].name
  {
  }

  lemma NoSpaceBefore12(i: nat)
    requires 6 <= i < 12
    ensures ' ' !in CITIES[i].name
  {
  }

  lemma NoSpaceFrom12(i: nat)
    requires 12 <= i < |CITIES|
    ensures ' ' !in CITIES[i].name
  {
  }

  // The example lemmas in this module take their string as a parameter pinned by `requires`
  // rather than as a literal, so that the verifier does not unfold every definition on it.
  /** A whitespace-only query is not empty: it filters, and `" "` finds only New York. */
  lemma SpaceQuery(query: string)
    requires query == " "
    ensures Suggestions(query) == [CITIES[2]]
  {
    forall i | 0 <= i < |CITIES| ensures Matches(CITIES[i], query) <==> i == 2 {
      SpaceMatches(CITIES[i]);
      SpaceOnlyInNewYork(i);
    }
    MatchingOnly(CITIES, query, 2);
  }

  // ------------------------------------------------------------ state

  /** The destination box's own state. */
  class CityBox {
    var query: string
    var open: bool

    /** `useState(value || '')`: a missing or empty value starts an empty query; the dropdown starts closed. */
    constructor (value: Option<string>)
      ensures query == (if value.Some? then value.value else "")
      ensures !open
    {
      query := if value.Some? then value.value else "";
      open := false;
    }

    /** The dropdown is on screen while it is open and has something to offer; with an
        empty query it always offers the popular destinations. */
    predicate DropdownShown(): (shown: bool)
      reads this
      ensures shown ==> open
      ensures query == [] ==> (shown <==> open)
    {
      open && |Suggestions(query)| > 0
    }

    /** The dropdown's caption. */
    function Caption(): (r: string)
      reads this
      ensures r == "Results" <==> query != []
    {
      if query != [] then "Results" else "Popular Destinations"
    }

    /** `select(name)`: the chosen name becomes the query and is reported; the dropdown closes. */
    method Select(name: string) returns (reported: string)
      modifies this
      ensures query == name && reported == name && !open
      ensures !DropdownShown()
    {
      query := name;
      reported := name;
      open := false;
    }

    /** `clear`: the query empties and the empty text is reported; the dropdown keeps its state. */
    method Clear() returns (reported: string)
      modifies this
      ensures query == "" && reported == "" && open == old(open)
      ensures DropdownShown() == old(open)
    {
      query := "";
      reported := "";
    }

    /** Typing: the typed text becomes the query and is reported, and the dropdown opens. */
    method Type(text: string) returns (reported: string)
      modifies this
      ensures query == text && reported == text && open
      ensures DropdownShown() <==> text == [] || Matching(CITIES, text) != []
    {
      query := text;
      reported := text;
      open := true;
    }

    /** Focusing the field opens the dropdown. */
    method Focus()
      modifies this
      ensures open && query == old(query)
    {
      open := true;
    }

    /** A mouse press outside the box closes the dropdown. */
    method PressOutside()
      modifies this
      ensures !open && query == old(query)
    {
      open := false;
    }
  }
}
