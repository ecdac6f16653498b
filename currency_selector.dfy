/** The currency picker: the list of currencies narrowed by a search query,
    the "selected row" test, and the picker's local state (whether the list
    is shown, and the search text) with the handlers that change it. */
module CurrencySelector {
  import opened Strings

  /** One entry of the list the picker's owner supplies. */
  datatype Currency = Currency(code: string, symbol: string, name: string)

  // ---------------------------------------------------------------------
  // Filtering
  // ---------------------------------------------------------------------

  /** The filter's test for one entry: the lower-cased query occurs in the
      lower-cased name or in the lower-cased code. */
  predicate Matches(c: Currency, query: string) {
    Includes(Lower(c.name), Lower(query)) || Includes(Lower(c.code), Lower(query))
  }

  /** `a` is `b` with some entries left out: nothing added, nothing
      duplicated, nothing reordered. */
  predicate IsSubsequence(a: seq<Currency>, b: seq<Currency>)
    decreases |b|
  {
    a == [] ||
    (b != [] && ((a[0] == b[0] && IsSubsequence(a[1..], b[1..])) || IsSubsequence(a, b[1..])))
  }

  /** `Array.prototype.filter` with the `Matches` test: the entries that
      pass, in their input order, each as often as it occurs in the input. */
  function KeepMatching(cs: seq<Currency>, query: string): (r: seq<Currency>)
    ensures IsSubsequence(r, cs)
    ensures forall c :: c in r ==> Matches(c, query)
    ensures forall c :: multiset(r)[c] == if Matches(c, query) then multiset(cs)[c] else 0
  {
    if cs == [] then []
    else
      assert cs == [cs[0]] + cs[1..];
      if Matches(cs[0], query) then [cs[0]] + KeepMatching(cs[1..], query)
      else KeepMatching(cs[1..], query)
  }

  /** What the picker lists for a query: the whole list for the empty query,
      otherwise the entries that match. The empty-query shortcut gives the
      same list the test would, because every entry matches the empty query. */
  function Filter(cs: seq<Currency>, query: string): (r: seq<Currency>)
    ensures query == "" ==> r == cs
    ensures r == KeepMatching(cs, query)
    ensures IsSubsequence(r, cs)
    ensures forall c :: c in r ==> Matches(c, query)
    ensures forall c :: c in cs && Matches(c, query) ==> c in r
    ensures forall c :: multiset(r)[c] == if Matches(c, query) then multiset(cs)[c] else 0
  {
    if query == "" then
      KeepEverythingThatMatches(cs, query);
      cs
    else
      KeepMatching(cs, query)
  }

  /** Every entry matches the empty query. */
  lemma MatchesEmptyQuery(c: Currency)
    ensures Matches(c, "")
  {
    assert OccursAt(Lower(c.name), "", 0);
  }

  /** When every entry matches, filtering keeps the whole list. */
  lemma {:induction false} KeepEverythingThatMatches(cs: seq<Currency>, query: string)
    requires query == "" || forall c :: c in cs ==> Matches(c, query)
    ensures KeepMatching(cs, query) == cs
  {
    if cs != [] {
      if query == "" { MatchesEmptyQuery(cs[0]); }
      KeepEverythingThatMatches(cs[1..], query);
    }
  }

  /** Two queries that every entry matches alike keep the same list. */
  lemma {:induction false} KeepAgreeingQueries(cs: seq<Currency>, q1: string, q2: string)
    requires forall c :: c in cs ==> (Matches(c, q1) <==> Matches(c, q2))
    ensures KeepMatching(cs, q1) == KeepMatching(cs, q2)
  {
    if cs != [] {
      KeepAgreeingQueries(cs[1..], q1, q2);
    }
  }

  /** Filtering the filtered list again with the same query changes nothing. */
  lemma FilterIdempotent(cs: seq<Currency>, query: string)
    ensures Filter(Filter(cs, query), query) == Filter(cs, query)
  {
    KeepEverythingThatMatches(Filter(cs, query), query);
  }

  /** The filter ignores the case of the query: filtering with a query gives
      the list filtering with its lower-cased form gives. */
  lemma FilterCaseInsensitive(cs: seq<Currency>, query: string)
    ensures Filter(cs, query) == Filter(cs, Lower(query))
  {
    LowerIdempotent(query);
    KeepAgreeingQueries(cs, query, Lower(query));
  }

  /** Typing the code of an entry, in any mix of upper and lower case, keeps
      that entry in the list. */
  lemma FilterKeepsEntryForItsCode(cs: seq<Currency>, c: Currency, query: string)
    requires c in cs
    requires Lower(query) == Lower(c.code)
    ensures c in Filter(cs, query)
  {
    IncludesItself(Lower(c.code));
  }

  /** Typing one more character never brings back an entry: the list for the
      longer query is a sub-list of the list for the shorter one. */
  lemma LongerQueryNarrows(cs: seq<Currency>, query: string, more: string)
    ensures IsSubsequence(Filter(cs, query + more), Filter(cs, query))
  {
    LongerQueryNarrowsKeep(cs, query, more);
  }

  /** The same statement as `LongerQueryNarrows`, for `KeepMatching`. */
  lemma {:induction false} LongerQueryNarrowsKeep(cs: seq<Currency>, query: string, more: string)
    ensures IsSubsequence(KeepMatching(cs, query + more), KeepMatching(cs, query))
  {
    if cs != [] {
      LongerQueryNarrowsKeep(cs[1..], query, more);
      var c := cs[0];
      var long, short := KeepMatching(cs[1..], query + more), KeepMatching(cs[1..], query);
      if Matches(c, query + more) {
        MatchWithLongerQuery(c, query, more);
        assert KeepMatching(cs, query + more) == [c] + long;
        assert KeepMatching(cs, query) == [c] + short;
      } else if Matches(c, query) {
        assert KeepMatching(cs, query + more) == long;
        assert KeepMatching(cs, query) == [c] + short;
        SubsequenceOfTail(long, [c] + short);
      }
    }
  }

  /** An entry that matches a longer query matches every prefix of it. */
  lemma MatchWithLongerQuery(c: Currency, query: string, more: string)
    requires Matches(c, query + more)
    ensures Matches(c, query)
  {
    var lq, lm := Lower(query), Lower(query + more);
    assert lm[..|lq|] == lq;
    assert OccursAt(lm, lq, 0);
    if Includes(Lower(c.name), lm) {
      IncludesTransitive(Lower(c.name), lm, lq);
    } else {
      IncludesTransitive(Lower(c.code), lm, lq);
    }
  }

  /** Leaving the first entry out of the longer list keeps a sub-list one. */
  lemma SubsequenceOfTail(a: seq<Currency>, b: seq<Currency>)
    requires b != [] && IsSubsequence(a, b[1..])
    ensures IsSubsequence(a, b)
  {
  }

  /** The concrete case: a list of US Dollar and Euro, and the query "eu",
      which occurs in the name "Euro" only. */
  lemma EuroScenario()
    ensures Filter([Currency("USD", "$", "US Dollar"), Currency("EUR", "€", "Euro")], "eu")
            == [Currency("EUR", "€", "Euro")]
  {
    var usd, eur := Currency("USD", "$", "US Dollar"), Currency("EUR", "€", "Euro");
    ScenarioMatches();
    assert [usd, eur][1..] == [eur];
  }

  /** Of the scenario's two entries, only the Euro matches "eu". */
  lemma ScenarioMatches()
    ensures !Matches(Currency("USD", "$", "US Dollar"), "eu")
    ensures Matches(Currency("EUR", "€", "Euro"), "eu")
  {
    ScenarioLowerCase();
    ScenarioIncludes();
  }

  /** "eu" occurs in "euro" and in neither "us dollar" nor "usd". */
  lemma ScenarioIncludes()
    ensures Includes("euro", "eu")
    ensures !Includes("us dollar", "eu") && !Includes("usd", "eu")
  {
    NotIncludedWithoutFirstChar("us dollar", "eu");
    NotIncludedWithoutFirstChar("usd", "eu");
    assert OccursAt("euro", "eu", 0);
  }

  /** The scenario's strings, lower-cased. */
  lemma ScenarioLowerCase()
    ensures Lower("eu") == "eu" && Lower("Euro") == "euro"
    ensures Lower("US Dollar") == "us dollar" && Lower("USD") == "usd"
  {
  }

  // ---------------------------------------------------------------------
  // The selected row
  // ---------------------------------------------------------------------

  /** A row is drawn as selected when its code is the selected currency's
      code; symbol and name play no part. */
  predicate IsSelectedRow(selected: Currency, row: Currency) {
    selected.code == row.code
  }

  /** When no entry of the list carries the selected code, no row of the
      filtered list is drawn as selected. */
  lemma NoSelectedRowWithoutItsCode(cs: seq<Currency>, selected: Currency, query: string)
    requires forall c :: c in cs ==> c.code != selected.code
    ensures forall row :: row in Filter(cs, query) ==> !IsSelectedRow(selected, row)
  {
  }

  /** When some entry of the list carries the selected currency's code (its
      symbol and name may differ) and the query is (a case variant of) that
      code, the filtered list shows a selected row. */
  lemma SelectedRowShownForItsCode(cs: seq<Currency>, selected: Currency, query: string)
    requires exists c :: c in cs && c.code == selected.code
    requires Lower(query) == Lower(selected.code)
    ensures exists row :: row in Filter(cs, query) && IsSelectedRow(selected, row)
  {
    var c :| c in cs && c.code == selected.code;
    FilterKeepsEntryForItsCode(cs, c, query);
  }

  // ---------------------------------------------------------------------
  // The picker's state
  // ---------------------------------------------------------------------

  /** The picker's two pieces of local state, and a record of every call of
      the owner's `onSelect` callback, oldest first. */
  class Picker {
    var modalVisible: bool
    var searchQuery: string
    ghost var calls: seq<Currency>

    /** Mounting: the list is hidden and the search box is empty. */
    constructor ()
      ensures !modalVisible && searchQuery == "" && calls == []
    {
      modalVisible := false;
      searchQuery := "";
      calls := [];
    }

    /** The list the picker currently shows for the owner's currencies. */
    function Rows(currencies: seq<Currency>): (r: seq<Currency>)
      reads this
      ensures IsSubsequence(r, currencies)
      ensures forall c :: c in r ==> Matches(c, searchQuery)
      ensures forall c :: c in currencies && Matches(c, searchQuery) ==> c in r
    {
      Filter(currencies, searchQuery)
    }

    /** Pressing the selector button shows the list; the search text is kept. */
    method Open()
      modifies this
      ensures modalVisible
      ensures searchQuery == old(searchQuery) && calls == old(calls)
    {
      modalVisible := true;
    }

    /** The close button and a back/close request both hide the list. The
        search text is kept, so it is still there when the list is reopened. */
    method Dismiss()
      modifies this
      ensures !modalVisible
      ensures searchQuery == old(searchQuery) && calls == old(calls)
    {
      modalVisible := false;
    }

    /** Each edit of the search box replaces the query and nothing else. */
    method EditText(text: string)
      modifies this
      ensures searchQuery == text
      ensures modalVisible == old(modalVisible) && calls == old(calls)
    {
      searchQuery := text;
    }

    /** Choosing a currency calls `onSelect` with it once, then hides the list
        and clears the search text. */
    method Select(currency: Currency)
      modifies this
      ensures calls == old(calls) + [currency]
      ensures !modalVisible && searchQuery == ""
    {
      calls := calls + [currency];
      modalVisible := false;
      searchQuery := "";
    }

    /** Pressing row `i` of the shown list selects that row's currency, which
        is an entry of the owner's list that matches the query. */
    method PressRow(currencies: seq<Currency>, i: nat)
      requires modalVisible && i < |Rows(currencies)|
      modifies this
      ensures calls == old(calls) + [old(Rows(currencies))[i]]
      ensures old(Rows(currencies))[i] in currencies
      ensures Matches(old(Rows(currencies))[i], old(searchQuery))
      ensures !modalVisible && searchQuery == ""
    {
      var item := Rows(currencies)[i];
      assert item in Rows(currencies);
      Select(item);
    }
  }

  /** Dismissing does not reset the search: text typed before a dismiss is
      still the query after the list is opened again. */
  method ReopenAfterDismiss(text: string) returns (visible: bool, query: string)
    ensures visible && query == text
  {
    var p := new Picker();
    p.Open();
    p.EditText(text);
    p.Dismiss();
    p.Open();
    visible, query := p.modalVisible, p.searchQuery;
  }

  /** Selecting after a search hides the list and empties the query, so the
      next opening shows the whole list. */
  method ReopenAfterSelect(currencies: seq<Currency>, text: string, i: nat)
    returns (visible: bool, rows: seq<Currency>)
    requires i < |Filter(currencies, text)|
    ensures visible && rows == currencies
  {
    var p := new Picker();
    p.Open();
    p.EditText(text);
    p.PressRow(currencies, i);
    p.Open();
    visible, rows := p.modalVisible, p.Rows(currencies);
  }
}
