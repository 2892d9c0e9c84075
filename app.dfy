/**
 * The application shell (src/App.jsx): which record is on display
 * (`selectedPokemon`) and whether a detail request is in flight (`loading`).
 *
 * A detail request's response is not fetched here: each operation is given
 * the outcome of its request, either the record or a failure. An async
 * handler runs in two steps split at its `await`: the part before it issues
 * the request, the `try`/`catch`/`finally` tail settles it.
 */
module App {
  import opened Wrappers
  import opened Text
  import opened PokemonCard
  import SearchBar

  /** What a detail request produced: the record in `response.data`, or an error. */
  datatype FetchOutcome = Success(data: Pokemon) | Failure

  /** The fixed prefix of every detail request. */
  const DetailEndpoint: string := "https://pokeapi.co/api/v2/pokemon/"

  /** The record loaded at start-up. */
  const DefaultPokemon: string := "pikachu"

  /** The detail request for a name: the fixed prefix followed by the lower-cased name. */
  function DetailUrl(pokemonName: string): (url: string)
    ensures |url| == |DetailEndpoint| + |pokemonName|
    ensures url[..|DetailEndpoint|] == DetailEndpoint
    ensures forall i :: 0 <= i < |pokemonName| ==> url[|DetailEndpoint| + i] == LowerChar(pokemonName[i])
  {
    DetailEndpoint + Lower(pokemonName)
  }

  /** Names that differ only in case request the same record, and the start-up request is the one for the default name. */
  lemma DetailUrlIgnoresCase(pokemonName: string)
    ensures DetailUrl(Lower(pokemonName)) == DetailUrl(pokemonName)
    ensures DetailUrl(DefaultPokemon) == DetailEndpoint + DefaultPokemon
  {
    LowerIdempotent(pokemonName);
    assert Lower(DefaultPokemon) == DefaultPokemon;
  }

  /** The record on display once a request settles: the response on success, the previous one on failure. */
  function Settled(selected: Option<Pokemon>, outcome: FetchOutcome): (next: Option<Pokemon>)
    ensures outcome.Success? ==> next == Some(outcome.data)
    ensures outcome.Failure? ==> next == selected
  {
    match outcome
    case Success(data) => Some(data)
    case Failure => selected
  }

  /** The record on display after requests settle one after another, in order. */
  function SettledAll(selected: Option<Pokemon>, outcomes: seq<FetchOutcome>): Option<Pokemon>
    decreases |outcomes|
  {
    if outcomes == [] then selected else SettledAll(Settled(selected, outcomes[0]), outcomes[1..])
  }

  /** Whether some outcome is a success. */
  predicate AnySuccess(outcomes: seq<FetchOutcome>) {
    exists k :: 0 <= k < |outcomes| && outcomes[k].Success?
  }

  /**
   * After a run of requests, the display holds the record of the last one
   * that succeeded, or, if none did, the record it held before.
   */
  lemma {:induction false} SettledAllKeepsLastSuccess(selected: Option<Pokemon>, outcomes: seq<FetchOutcome>)
    ensures !AnySuccess(outcomes) ==> SettledAll(selected, outcomes) == selected
    ensures forall k :: 0 <= k < |outcomes| && outcomes[k].Success? && !AnySuccess(outcomes[k + 1..]) ==>
              SettledAll(selected, outcomes) == Some(outcomes[k].data)
    decreases |outcomes|
  {
    if outcomes != [] {
      var rest := outcomes[1..];
      SettledAllKeepsLastSuccess(Settled(selected, outcomes[0]), rest);
      if !AnySuccess(outcomes) {
        assert !outcomes[0].Success?;
        assert !AnySuccess(rest) by {
          forall j | 0 <= j < |rest| ensures !rest[j].Success? { assert rest[j] == outcomes[j + 1]; }
        }
      }
      forall k | 0 <= k < |outcomes| && outcomes[k].Success? && !AnySuccess(outcomes[k + 1..])
        ensures SettledAll(selected, outcomes) == Some(outcomes[k].data)
      {
        if k == 0 {
          assert outcomes[1..] == rest;
        } else {
          assert rest[k - 1] == outcomes[k];
          assert rest[k..] == outcomes[k + 1..];
        }
      }
    }
  }

  /** What the page shows below the search box. */
  datatype Screen = Screen(card: Option<Card>, spinner: bool)

  /** The render conditions: the card only with a record, the spinner only over a card while loading. */
  function RenderScreen(selected: Option<Pokemon>, loading: bool): (screen: Screen)
    ensures screen.card.Some? <==> selected.Some?
    ensures screen.spinner <==> selected.Some? && loading
  {
    Screen(RenderCard(selected), selected.Some? && loading)
  }

  /** At start-up the request is in flight, yet nothing shows, not even the spinner. */
  lemma InitialScreenIsBlank()
    ensures RenderScreen(None, true) == Screen(None, false)
  {
  }

  /** The application's state. */
  class PokeSearchApp {
    var selectedPokemon: Option<Pokemon>
    var loading: bool

    /** Initial state: no record, loading. */
    constructor ()
      ensures selectedPokemon == None && loading
    {
      selectedPokemon := None;
      loading := true;
    }

    /**
     * `fetchPikachu`: request the default record; on success it replaces the
     * display, on failure nothing changes; loading ends either way.
     */
    method FetchPikachu(outcome: FetchOutcome) returns (url: string)
      modifies this
      ensures url == DetailEndpoint + DefaultPokemon
      ensures selectedPokemon == Settled(old(selectedPokemon), outcome)
      ensures !loading
    {
      url := DetailEndpoint + DefaultPokemon;
      Settle(outcome);
    }

    /** `handlePokemonSelect` up to its `await`: loading starts and the request for the lower-cased name is issued. */
    method BeginSelect(pokemonName: string) returns (url: string)
      modifies this
      ensures url == DetailUrl(pokemonName)
      ensures loading && selectedPokemon == old(selectedPokemon)
    {
      loading := true;
      url := DetailEndpoint + Lower(pokemonName);
    }

    /** The `try`/`catch`/`finally` tail: take the record on success, swallow the error on failure, stop loading. */
    method Settle(outcome: FetchOutcome)
      modifies this
      ensures selectedPokemon == Settled(old(selectedPokemon), outcome)
      ensures !loading
    {
      match outcome {
        case Success(data) =>
          selectedPokemon := Some(data);
        case Failure =>
      }
      loading := false;
    }

    /** `handlePokemonSelect` when nothing else is in flight: begin, then settle with the given outcome. */
    method HandlePokemonSelect(pokemonName: string, outcome: FetchOutcome) returns (url: string)
      modifies this
      ensures url == DetailUrl(pokemonName)
      ensures selectedPokemon == Settled(old(selectedPokemon), outcome)
      ensures !loading
    {
      url := BeginSelect(pokemonName);
      Settle(outcome);
    }

    /** What the page shows in the current state. */
    function View(): (screen: Screen)
      reads this
      ensures screen.spinner ==> screen.card.Some?
      ensures screen.card.Some? <==> selectedPokemon.Some?
    {
      RenderScreen(selectedPokemon, loading)
    }
  }

  /**
   * Picking a suggestion: the search box hands the name to the application,
   * which requests it, and the box empties and unfocuses.
   */
  method PickSuggestion(app: PokeSearchApp, box: SearchBar.SearchBox, pokemonName: string, outcome: FetchOutcome)
    returns (url: string)
    requires box.Valid()
    modifies app, box
    ensures url == DetailUrl(pokemonName)
    ensures app.selectedPokemon == Settled(old(app.selectedPokemon), outcome) && !app.loading
    ensures box.Valid() && box.searchTerm == "" && box.filteredPokemon == [] && !box.isFocused && !box.ShowsDropdown()
    ensures box.allPokemon == old(box.allPokemon)
  {
    var name := box.HandlePokemonSelect(pokemonName);
    url := app.HandlePokemonSelect(name, outcome);
  }

  /**
   * Two selections whose requests overlap: both begin, then the second
   * settles before the first. The record that settles last is the one on
   * display, and loading already ended when the first settled.
   */
  method OverlappingSelections(app: PokeSearchApp, first: string, second: string, a: Pokemon, b: Pokemon)
    modifies app
    ensures app.selectedPokemon == Some(a) && !app.loading
  {
    var urlA := app.BeginSelect(first);
    var urlB := app.BeginSelect(second);
    app.Settle(Success(b));
    assert !app.loading && app.selectedPokemon == Some(b);
    app.Settle(Success(a));
  }
}
