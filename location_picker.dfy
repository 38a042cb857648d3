/**
  The location picker: a search box whose term follows the value it is given, a suggestion list
  filled from the geocoder for queries of at least three non-blank characters, and the two ways
  it reports a new value: picking a suggestion, or clearing.
*/
module LocationPicker {
  import opened Common
  import opened JsString
  import opened JsValues
  import opened Locations

  /** The picker's `value`: a location, a plain string, or null. */
  datatype PickerValue = NoValue | Text(s: string) | Place(loc: Location)

  /** A geocoder match: its display name and its coordinates, already parsed. */
  datatype Suggestion = Suggestion(displayName: string, lat: real, lon: real)

  /** The shortest trimmed query that is sent to the geocoder. */
  const MinQueryLength: nat := 3

  /** `searchLocation`'s guard: the query is sent only when its trimmed `.length` (UTF-16 code units) is at least three. */
  predicate Searchable(query: string) {
    query != "" && Utf16Length(Trim(query)) >= MinQueryLength
  }

  /** The location a picked suggestion is reported as. */
  function SuggestedLocation(s: Suggestion): Location {
    Location(Str(s.displayName), Num(s.lat), Num(s.lon))
  }

  class Picker {
    var searchTerm: string
    var suggestions: seq<Suggestion>
    var isLoading: bool
    var showSuggestions: bool

    constructor ()
      ensures searchTerm == "" && suggestions == [] && !isLoading && !showSuggestions
    {
      searchTerm, suggestions, isLoading, showSuggestions := "", [], false, false;
    }

    /**
      The effect that initialises the term from `value`: a string is used verbatim and null gives
      ""; a location gives its display name when that is truthy and otherwise leaves the term.
    */
    method SyncFromValue(value: PickerValue)
      modifies this
      ensures value.Text? ==> searchTerm == value.s
      ensures value.NoValue? ==> searchTerm == ""
      ensures value.Place? && Truthy(value.loc.displayName) ==> searchTerm == TextOf(value.loc.displayName)
      ensures value.Place? && !Truthy(value.loc.displayName) ==> searchTerm == old(searchTerm)
      ensures suggestions == old(suggestions) && showSuggestions == old(showSuggestions) && isLoading == old(isLoading)
    {
      match value {
        case Text(s) =>
          searchTerm := s;
        case Place(l) =>
          if Truthy(l.displayName) {
            searchTerm := TextOf(l.displayName);
          }
        case NoValue =>
          searchTerm := "";
      }
    }

    /**
      `searchLocation(query)`: a short query clears the suggestions and sends nothing; otherwise the
      geocoder is asked (`requested`) and its answer (`response`, None when the request failed)
      replaces the suggestions and opens the list.
    */
    method SearchLocation(query: string, response: Option<seq<Suggestion>>) returns (requested: bool)
      modifies this
      ensures requested == Searchable(query)
      ensures !requested ==> suggestions == [] && showSuggestions == old(showSuggestions)
      ensures requested && response.Some? ==> suggestions == response.value && showSuggestions
      ensures requested && response.None? ==> suggestions == old(suggestions) && showSuggestions == old(showSuggestions)
      ensures searchTerm == old(searchTerm) && isLoading == (if requested then false else old(isLoading))
    {
      if !Searchable(query) {
        suggestions := [];
        return false;
      }
      requested := true;
      isLoading := true;
      if response.Some? {
        suggestions := response.value;
        showSuggestions := true;
      }
      isLoading := false;
    }

    /** `handleInputChange`: the term follows the input and the new text is searched. */
    method HandleInputChange(newValue: string, response: Option<seq<Suggestion>>) returns (requested: bool)
      modifies this
      ensures searchTerm == newValue && requested == Searchable(newValue)
      ensures !requested ==> suggestions == [] && showSuggestions == old(showSuggestions)
      ensures requested && response.Some? ==> suggestions == response.value && showSuggestions
      ensures requested && response.None? ==> suggestions == old(suggestions) && showSuggestions == old(showSuggestions)
      ensures isLoading == (if requested then false else old(isLoading))
    {
      searchTerm := newValue;
      requested := SearchLocation(newValue, response);
    }

    /** `handleSelectSuggestion`: the term becomes the suggestion's name, the list closes and the location is reported. */
    method HandleSelectSuggestion(s: Suggestion) returns (reported: Location)
      modifies this
      ensures searchTerm == s.displayName && !showSuggestions
      ensures reported == SuggestedLocation(s)
      ensures suggestions == old(suggestions) && isLoading == old(isLoading)
    {
      searchTerm := s.displayName;
      showSuggestions := false;
      reported := SuggestedLocation(s);
    }

    /** `handleClear`: the term and the suggestions are emptied and null is reported. */
    method HandleClear() returns (reported: Option<Location>)
      modifies this
      ensures searchTerm == "" && suggestions == [] && reported.None?
      ensures showSuggestions == old(showSuggestions) && isLoading == old(isLoading)
    {
      searchTerm := "";
      suggestions := [];
      reported := None;
    }
  }

  /** A query of fewer than three characters, or of blanks only, never reaches the geocoder. */
  lemma ShortQueriesNotSent(query: string)
    requires Utf16Length(query) < MinQueryLength || AllSpace(query)
    ensures !Searchable(query)
  {
    BlankIffAllSpace(query);
    var a, b := TrimSpec(query);
    Utf16LengthAppend(a, Trim(query));
    Utf16LengthAppend(a + Trim(query), b);
  }

  /** One letter and one emoji make three code units: such a query is sent although it has two characters. */
  lemma EmojiQuerySent()
    ensures Searchable("a\U{1F600}")
  {
    var q := "a\U{1F600}";
    assert !IsSpace(q[0]) && !IsSpace(q[1]);
    assert TrimStart(q) == q;
    assert TrimEnd(q) == q;
    assert Utf16Length(q[1..][1..]) == 0;
  }

  /** A picked suggestion is a well-formed location when its name is not empty and its coordinates are not 0. */
  lemma SuggestedLocationWellFormed(s: Suggestion)
    requires s.displayName != "" && s.lat != 0.0 && s.lon != 0.0
    ensures WellFormed(SuggestedLocation(s))
    ensures StructuredLocation(LocationValue(SuggestedLocation(s))) == Some(SuggestedLocation(s))
  {
    StoredLocationReadsBack(SuggestedLocation(s));
  }
}
