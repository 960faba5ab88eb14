/** The character detail page: the character named by the route, every
    episode the character appears in, and the badge of the status. */
module CharacterDetailPage {
  import opened Wrappers
  import opened Catalog
  import Api
  import Expansion
  import CharacterCard

  const LoadError := "Failed to load character details. Please try again later."

  /** What the page renders, in the order the component tests for it. */
  datatype View = Spinner | ErrorPanel(message: string) | Blank | Content

  /** The state of the page component. */
  class Loader {
    var character: Option<Character>
    var episodes: seq<Episode>
    var loading: bool
    var error: Option<string>

    /** The spinner and the error are never both set, and the only error is
        the fixed message. */
    predicate Valid()
      reads this
    {
      (loading ==> error.None?) && (error.Some? ==> error.value == LoadError)
    }

    constructor()
      ensures Valid()
      ensures character.None? && episodes == [] && loading && error.None?
    {
      character := None;
      episodes := [];
      loading := true;
      error := None;
    }

    /** The first half of the load effect: spinner on, error cleared, and the
        character of the route requested. The character shown before stays
        until the new one arrives. */
    method Start(id: string) returns (endpoint: string)
      requires Valid()
      modifies this`loading, this`error
      ensures Valid()
      ensures loading && error.None? && View() == Spinner
      ensures endpoint == Api.ByIdEndpoint(Api.Character, id)
    {
      loading := true;
      error := None;
      endpoint := Api.ByIdEndpoint(Api.Character, id);
    }

    /** The second half of the load effect, given how the character request
        settled and what the network answers for each episode URL. Returns the
        episode URLs it requested: none when the character failed, otherwise
        every episode the character lists, in order, with no limit. A failed
        episode request shows the error although the character was stored. */
    method Finish(primary: Outcome<Character>, network: string -> Api.HttpResponse<Episode>)
      returns (requested: seq<string>)
      requires Valid()
      modifies this`character, this`episodes, this`loading, this`error
      ensures Valid() && !loading
      ensures primary.Fail? ==>
        requested == [] && character == old(character) && episodes == old(episodes) && error == Some(LoadError)
      ensures primary.Ok? ==>
        character == Some(primary.value) && requested == primary.value.episode
      ensures primary.Ok? && requested == [] ==> episodes == old(episodes) && error == old(error)
      ensures primary.Ok? && requested != [] ==>
        var fetched := Expansion.All(requested, network);
        && (fetched.Ok? ==> episodes == fetched.value && error == old(error))
        && (fetched.Fail? ==> episodes == old(episodes) && error == Some(LoadError))
      ensures old(error).None? ==>
        (View() == Content <==> primary.Ok? && (requested == [] || Expansion.All(requested, network).Ok?))
    {
      requested := [];
      match primary {
        case Fail =>
          error := Some(LoadError);
          loading := false;
        case Ok(data) =>
          character := Some(data);
          if |data.episode| > 0 {
            requested := data.episode;
            var fetched := Expansion.All(requested, network);
            match fetched {
              case Ok(list) =>
                episodes := list;
              case Fail =>
                error := Some(LoadError);
            }
          }
          loading := false;
      }
    }

    /** Loading first, then the error, then nothing while no character is
        known, and the character otherwise. */
    function View(): View
      reads this
    {
      if loading then Spinner
      else if error.Some? && error.value != "" then ErrorPanel(error.value)
      else if character.None? then Blank
      else Content
    }
  }

  /** A failed episode request hides the character it follows: the error
      panel is shown although the character is stored. */
  lemma ErrorHidesStoredCharacter(l: Loader)
    requires l.Valid() && !l.loading && l.error.Some? && l.character.Some?
    ensures l.View() == ErrorPanel(LoadError)
  {
  }

  /** `getStatusColor(status)`: like the card's, but a missing status is gray
      instead of an error. */
  function StatusColor(status: Option<string>): (badge: StatusBadge)
    ensures status.None? ==> badge == Gray
    ensures status.Some? ==> badge == CharacterCard.StatusColor(status.value)
  {
    match status
    case None => Gray
    case Some(s) => CharacterCard.StatusColor(s)
  }
}
