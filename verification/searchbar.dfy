/** The home map search box (src/pages/home-map-view/components/SearchBar.jsx):
    the query, the focus flag, the suggestion list derived from both, and
    what each handler emits to the page. */
module SearchBar {
  import opened Wrappers
  import opened Text
  import opened Seqs

  /** The texts of the built-in suggestions, in display order. */
  const MockSuggestions: seq<string> := [
    "Road damage in Mumbai", "Garbage collection", "Water supply issues", "Delhi",
    "Street lights not working", "Bangalore", "Drainage problems", "Traffic signal malfunction"]

  const MaxSuggestions: nat := 5

  datatype Bar = Bar(query: string, focused: bool, suggestions: seq<string>)

  const InitialBar := Bar("", false, [])

  /** What the page hears from one handler: `onSearch` and `onClear`. */
  datatype Emitted = Emitted(search: Option<string>, cleared: bool)

  const Silent := Emitted(None, false)

  /** The suggestion text matches: the lower-cased query, untrimmed, occurs
      in the lower-cased text. */
  predicate Suggests(query: string, text: string) {
    Contains(Lower(text), Lower(query))
  }

  /** The suggestion effect over a suggestion list: nothing while blurred
      or for a blank query, otherwise the first five matching texts in
      order. */
  function SuggestFrom(texts: seq<string>, query: string, focused: bool): (r: seq<string>)
    ensures |r| <= MaxSuggestions
    ensures Trim(query) == "" || !focused ==> r == []
    ensures Trim(query) != "" && focused ==>
              var all := Filter(texts, (t: string) => Suggests(query, t));
              |r| <= |all| && r == all[..|r|] && (|r| == MaxSuggestions || r == all)
    ensures forall t :: t in r ==> t in texts && Suggests(query, t)
  {
    if Trim(query) != "" && focused then
      var all := Filter(texts, (t: string) => Suggests(query, t));
      var r := Take(all, MaxSuggestions);
      assert forall t :: t in r ==> t in all;
      r
    else []
  }

  /** The effect over the built-in suggestions. */
  function Suggest(query: string, focused: bool): seq<string> {
    SuggestFrom(MockSuggestions, query, focused)
  }

  /** The effect has run: the list agrees with the query and the focus. */
  predicate Settled(b: Bar) {
    b.suggestions == Suggest(b.query, b.focused)
  }

  /** Re-run the effect after a state change. */
  function Settle(b: Bar): (r: Bar)
    ensures Settled(r)
    ensures r.query == b.query && r.focused == b.focused
  {
    b.(suggestions := Suggest(b.query, b.focused))
  }

  /** `handleInputChange`: store and forward the raw value. */
  function InputChange(b: Bar, value: string, hasOnSearch: bool): (r: (Bar, Emitted))
    ensures r.0.query == value && r.0.focused == b.focused && Settled(r.0)
    ensures r.1 == (if hasOnSearch then Emitted(Some(value), false) else Silent)
  {
    (Settle(b.(query := value)), if hasOnSearch then Emitted(Some(value), false) else Silent)
  }

  function Focus(b: Bar): (r: Bar)
    ensures r.focused && r.query == b.query && Settled(r)
  {
    Settle(b.(focused := true))
  }

  /** The blur handler, once its 200 ms delay has passed. */
  function Blur(b: Bar): (r: Bar)
    ensures !r.focused && r.query == b.query && r.suggestions == []
  {
    Settle(b.(focused := false))
  }

  /** `handleSuggestionClick`: take the text, close the list, blur, and
      search for the text. */
  function SuggestionClick(b: Bar, text: string, hasOnSearch: bool): (r: (Bar, Emitted))
    ensures r.0 == Bar(text, false, [])
    ensures r.1 == (if hasOnSearch then Emitted(Some(text), false) else Silent)
  {
    var next := Bar(text, false, []);
    assert Settle(next) == next;
    (Settle(next), if hasOnSearch then Emitted(Some(text), false) else Silent)
  }

  /** `handleClear`: empty the query and the list, keep the focus, notify
      `onClear` and search for `''`. */
  function Clear(b: Bar, hasOnClear: bool, hasOnSearch: bool): (r: (Bar, Emitted))
    ensures r.0 == Bar("", b.focused, [])
    ensures r.1.cleared == hasOnClear
    ensures r.1.search == (if hasOnSearch then Some("") else None)
  {
    var next := Bar("", b.focused, []);
    assert Trim("") == "";
    assert Settle(next) == next;
    (Settle(next), Emitted(if hasOnSearch then Some("") else None, hasOnClear))
  }

  /** `handleSubmit`: close the list, blur, and search for the trimmed query
      unless it is blank. */
  function Submit(b: Bar, hasOnSearch: bool): (r: (Bar, Emitted))
    ensures r.0 == Bar(b.query, false, [])
    ensures r.1.search.Some? <==> hasOnSearch && !AllSpace(b.query)
    ensures r.1.search.Some? ==> r.1.search.value == Trim(b.query) && r.1.search.value != ""
    ensures !r.1.cleared
  {
    var next := Bar(b.query, false, []);
    assert Settle(next) == next;
    TrimEmptyIffAllSpace(b.query);
    (Settle(next), Emitted(if hasOnSearch && Trim(b.query) != "" then Some(Trim(b.query)) else None, false))
  }

  /** What submit searches for has no surrounding whitespace, so submitting
      it again searches for the same text. */
  lemma SubmitTwice(b: Bar)
    ensures var (b1, e1) := Submit(b, true);
            e1.search.Some? ==> Submit(b1.(query := e1.search.value), true).1 == e1
  {
    TrimIdempotent(b.query);
    var t := Trim(b.query);
    if t != "" {
      TrimEmptyIffAllSpace(b.query);
      TrimEmptyIffAllSpace(t);
    }
  }

  /** Every handler leaves the list in agreement with the query and focus. */
  lemma HandlersSettle(b: Bar, v: string, t: string, x: bool, y: bool)
    ensures Settled(InputChange(b, v, x).0) && Settled(Focus(b)) && Settled(Blur(b))
    ensures Settled(SuggestionClick(b, t, x).0) && Settled(Clear(b, x, y).0) && Settled(Submit(b, x).0)
  {
  }

  /** A query of blanks never produces suggestions, focused or not. */
  lemma BlankQuerySuggestsNothing(query: string, focused: bool)
    requires AllSpace(query)
    ensures Suggest(query, focused) == []
  {
    TrimEmptyIffAllSpace(query);
  }
}
