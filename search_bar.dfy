/**
 * The search box (src/components/SearchBar.jsx): the suggestion filter over
 * the catalog of names, and the three pieces of component state it keeps,
 * `searchTerm`, `filteredPokemon` and `isFocused`.
 *
 * The catalog query (`allPokemon`) is `undefined` until the list has
 * arrived; here it is an `Option` the box is given, and its arrival is the
 * `ReceiveCatalog` event.
 */
module SearchBar {
  import opened Wrappers
  import opened Text

  /** The filter keeps at most this many names (`.slice(0, 5)`). */
  const MaxSuggestions: nat := 5

  /** A catalog name matches when its lower-case form contains the lower-cased term. */
  predicate Matches(name: string, term: string)
    ensures Matches(name, term) <==> exists i :: OccursAt(Lower(name), Lower(term), i)
    ensures |term| == 0 ==> Matches(name, term)
  {
    ContainsIffOccurs(Lower(name), Lower(term));
    assert |term| == 0 ==> OccursAt(Lower(name), Lower(term), 0);
    Contains(Lower(name), Lower(term))
  }

  /** `allPokemon.filter(...)`: the matching names, in catalog order. */
  function MatchingNames(catalog: seq<string>, term: string): (r: seq<string>)
    ensures |r| <= |catalog|
    ensures forall x :: x in r ==> x in catalog && Matches(x, term)
  {
    if catalog == [] then []
    else (if Matches(catalog[0], term) then [catalog[0]] else []) + MatchingNames(catalog[1..], term)
  }

  /**
   * The suggestion list the effect stores in `filteredPokemon`: nothing for
   * an empty term or a catalog that has not arrived, otherwise the first
   * five matching names.
   */
  function Suggestions(term: string, allPokemon: Option<seq<string>>): (r: seq<string>)
    ensures |r| <= MaxSuggestions
    ensures |term| == 0 || allPokemon.None? ==> r == []
    ensures forall x :: x in r ==> allPokemon.Some? && x in allPokemon.value && Matches(x, term)
  {
    if |term| > 0 && allPokemon.Some? then
      var m := MatchingNames(allPokemon.value, term);
      var r := Take(m, MaxSuggestions);
      assert forall x :: x in r ==> x in m;
      r
    else []
  }

  /** The filter keeps a catalog name exactly when it matches. */
  lemma {:induction false} MatchingMembership(catalog: seq<string>, term: string, x: string)
    ensures x in MatchingNames(catalog, term) <==> x in catalog && Matches(x, term)
  {
    if catalog != [] {
      MatchingMembership(catalog[1..], term, x);
      assert x in catalog <==> x == catalog[0] || x in catalog[1..];
    }
  }

  /** The filter keeps every copy of a matching name and no copy of any other: no duplicates are made or lost. */
  lemma {:induction false} MatchingMultiplicity(catalog: seq<string>, term: string, x: string)
    ensures multiset(MatchingNames(catalog, term))[x] == if Matches(x, term) then multiset(catalog)[x] else 0
  {
    if catalog != [] {
      MatchingMultiplicity(catalog[1..], term, x);
      assert catalog == [catalog[0]] + catalog[1..];
      assert multiset(catalog) == multiset([catalog[0]]) + multiset(catalog[1..]);
    }
  }

  /** The filter keeps catalog order: filtering a concatenation concatenates the filtered parts. */
  lemma {:induction false} MatchingConcat(a: seq<string>, b: seq<string>, term: string)
    ensures MatchingNames(a + b, term) == MatchingNames(a, term) + MatchingNames(b, term)
  {
    if a == [] {
      assert a + b == b;
    } else {
      assert (a + b)[1..] == a[1..] + b;
      MatchingConcat(a[1..], b, term);
    }
  }

  /**
   * Reference definition of the suggestion list: walk the catalog once and
   * stop after `n` matching names.
   */
  function FirstMatches(catalog: seq<string>, term: string, n: nat): (r: seq<string>)
    ensures |r| <= n
  {
    if n == 0 || catalog == [] then []
    else if Matches(catalog[0], term) then [catalog[0]] + FirstMatches(catalog[1..], term, n - 1)
    else FirstMatches(catalog[1..], term, n)
  }

  lemma {:induction false} TakeMatchingIsFirstMatches(catalog: seq<string>, term: string, n: nat)
    ensures Take(MatchingNames(catalog, term), n) == FirstMatches(catalog, term, n)
  {
    if n != 0 && catalog != [] {
      TakeMatchingIsFirstMatches(catalog[1..], term, if Matches(catalog[0], term) then n - 1 else n);
      var rest := MatchingNames(catalog[1..], term);
      if Matches(catalog[0], term) {
        assert MatchingNames(catalog, term) == [catalog[0]] + rest;
        assert Take([catalog[0]] + rest, n) == [catalog[0]] + Take(rest, n - 1);
      } else {
        assert MatchingNames(catalog, term) == rest;
      }
    }
  }

  /** For a non-empty term over a loaded catalog, the suggestions are exactly the first five matches in catalog order. */
  lemma SuggestionsAreFirstMatches(term: string, catalog: seq<string>)
    requires |term| > 0
    ensures Suggestions(term, Some(catalog)) == FirstMatches(catalog, term, MaxSuggestions)
  {
    TakeMatchingIsFirstMatches(catalog, term, MaxSuggestions);
  }

  /** With at most five matches, every matching name is suggested. */
  lemma SuggestionsWhenFew(term: string, catalog: seq<string>, x: string)
    requires |term| > 0 && |MatchingNames(catalog, term)| <= MaxSuggestions
    ensures x in Suggestions(term, Some(catalog)) <==> x in catalog && Matches(x, term)
  {
    MatchingMembership(catalog, term, x);
  }

  /** Matching ignores case: a term and its lower-case form give the same suggestions. */
  lemma SuggestionsCaseInsensitive(term: string, allPokemon: Option<seq<string>>)
    ensures Suggestions(Lower(term), allPokemon) == Suggestions(term, allPokemon)
  {
    LowerIdempotent(term);
    if |term| > 0 && allPokemon.Some? {
      MatchingLowerTerm(allPokemon.value, term);
    }
  }

  lemma {:induction false} MatchingLowerTerm(catalog: seq<string>, term: string)
    ensures MatchingNames(catalog, Lower(term)) == MatchingNames(catalog, term)
  {
    LowerIdempotent(term);
    if catalog != [] {
      MatchingLowerTerm(catalog[1..], term);
    }
  }

  /** A term no catalog name contains gives no suggestions. */
  lemma {:induction false} NoMatchNoSuggestions(term: string, catalog: seq<string>)
    requires forall x :: x in catalog ==> !Matches(x, term)
    ensures MatchingNames(catalog, term) == []
    ensures Suggestions(term, Some(catalog)) == []
  {
    if catalog != [] {
      assert catalog[0] in catalog;
      NoMatchNoSuggestions(term, catalog[1..]);
    }
  }

  /** Typing "char" over a three-name catalog suggests the two names containing it, in catalog order. */
  lemma TypingCharExample()
    ensures Suggestions("char", Some(["bulbasaur", "charmander", "charizard"])) == ["charmander", "charizard"]
  {
    var c := ["bulbasaur", "charmander", "charizard"];
    CharNameMatches("charmander");
    CharNameMatches("charizard");
    BulbasaurDoesNotMatch();
    assert c[1..] == ["charmander", "charizard"] && c[1..][1..] == ["charizard"] && c[1..][1..][1..] == [];
    assert MatchingNames(c[1..][1..], "char") == ["charizard"];
  }

  lemma CharNameMatches(name: string)
    requires name == "charmander" || name == "charizard"
    ensures Matches(name, "char")
  {
    LowerOfLowercase("char");
    LowerOfLowercase(name);
    assert name[..4] == "char";
  }

  lemma BulbasaurDoesNotMatch()
    ensures !Matches("bulbasaur", "char")
  {
    LowerOfLowercase("char");
    LowerOfLowercase("bulbasaur");
    FirstCharAbsent("bulbasaur", "char");
  }

  lemma LowerOfLowercase(s: string)
    requires forall i :: 0 <= i < |s| ==> IsLower(s[i])
    ensures Lower(s) == s
  {
  }

  /** A needle whose first character never occurs in the haystack is not contained in it. */
  lemma {:induction false} FirstCharAbsent(hay: string, needle: string)
    requires |needle| > 0 && needle[0] !in hay
    ensures !Contains(hay, needle)
  {
    if |hay| > 0 {
      assert hay[0] != needle[0];
      FirstCharAbsent(hay[1..], needle);
    }
  }

  /** The search box's state. */
  class SearchBox {
    var searchTerm: string
    var filteredPokemon: seq<string>
    var isFocused: bool
    var allPokemon: Option<seq<string>>

    /** The filter effect has run for the current term and catalog. */
    ghost predicate Valid()
      reads this
    {
      filteredPokemon == Suggestions(searchTerm, allPokemon)
    }

    /** Initial state: empty term, no suggestions, not focused. */
    constructor (catalog: Option<seq<string>>)
      ensures Valid()
      ensures searchTerm == "" && filteredPokemon == [] && !isFocused && allPokemon == catalog
    {
      searchTerm := "";
      filteredPokemon := [];
      isFocused := false;
      allPokemon := catalog;
    }

    /** The filter effect, run whenever `searchTerm` or `allPokemon` changes. */
    method RefreshSuggestions()
      modifies this`filteredPokemon
      ensures Valid()
    {
      filteredPokemon := Suggestions(searchTerm, allPokemon);
    }

    /** The catalog query's data arrives; the effect runs again. */
    method ReceiveCatalog(names: seq<string>)
      modifies this
      ensures Valid()
      ensures allPokemon == Some(names)
      ensures searchTerm == old(searchTerm) && isFocused == old(isFocused)
    {
      allPokemon := Some(names);
      RefreshSuggestions();
    }

    /** `handleInputChange`: the term becomes the input's value and the suggestions follow it. */
    method HandleInputChange(value: string)
      requires Valid()
      modifies this
      ensures Valid()
      ensures searchTerm == value && filteredPokemon == Suggestions(value, allPokemon)
      ensures isFocused == old(isFocused) && allPokemon == old(allPokemon)
    {
      searchTerm := value;
      RefreshSuggestions();
    }

    /** `onFocus`: the box is focused; term and suggestions are untouched. */
    method Focus()
      requires Valid()
      modifies this`isFocused
      ensures Valid()
      ensures isFocused
    {
      isFocused := true;
    }

    /** The clear button: the term becomes empty and so do the suggestions. */
    method Clear()
      requires Valid()
      modifies this
      ensures Valid()
      ensures searchTerm == "" && filteredPokemon == []
      ensures isFocused == old(isFocused) && allPokemon == old(allPokemon)
    {
      searchTerm := "";
      RefreshSuggestions();
    }

    /**
     * `handlePokemonSelect`: hands the picked name to the parent's callback,
     * then unfocuses and empties the term. The returned value is the
     * argument the callback receives.
     */
    method HandlePokemonSelect(pokemonName: string) returns (selected: string)
      requires Valid()
      modifies this
      ensures Valid()
      ensures selected == pokemonName
      ensures !isFocused && searchTerm == "" && filteredPokemon == []
      ensures allPokemon == old(allPokemon)
    {
      selected := pokemonName;
      isFocused := false;
      searchTerm := "";
      RefreshSuggestions();
    }

    /** The suggestion dropdown is rendered. */
    function ShowsDropdown(): (shown: bool)
      reads this
      requires Valid()
      ensures shown <==> isFocused && Suggestions(searchTerm, allPokemon) != []
      ensures shown ==> |searchTerm| > 0 && allPokemon.Some?
    {
      isFocused && |filteredPokemon| > 0
    }

    /** The clear button is rendered (`{searchTerm && ...}`). */
    function ShowsClearButton(): (shown: bool)
      reads this
      requires Valid()
      ensures shown <==> |searchTerm| > 0
      ensures !shown ==> filteredPokemon == []
    {
      searchTerm != ""
    }
  }
}
