/** The episode detail page: the episode named by the route, and the first
    twenty of the characters that appear in it. */
module EpisodeDetailPage {
  import opened Wrappers
  import opened Catalog
  import Api
  import Expansion

  const LoadError := "Failed to load episode details. Please try again later."

  /** What the page renders, in the order the component tests for it. */
  datatype View = Spinner | ErrorPanel(message: string) | Blank | Content

  /** The state of the page component. */
  class Loader {
    var episode: Option<Episode>
    var characters: seq<Character>
    var loading: bool
    var error: Option<string>

    /** The spinner and the error are never both set, and the only error is
        the fixed message. */
    predicate Valid()
      reads this
    {
      (loading ==> error.None?) && (error.Some? ==> error.value == LoadError)
    }

    constructor()
      ensures Valid()
      ensures episode.None? && characters == [] && loading && error.None?
    {
      episode := None;
      characters := [];
      loading := true;
      error := None;
    }

    /** The first half of the load effect: spinner on, error cleared, and the
        episode of the route requested. The episode shown before stays until
        the new one arrives. */
    method Start(id: string) returns (endpoint: string)
      requires Valid()
      modifies this`loading, this`error
      ensures Valid()
      ensures loading && error.None? && View() == Spinner
      ensures endpoint == Api.ByIdEndpoint(Api.Episode, id)
    {
      loading := true;
      error := None;
      endpoint := Api.ByIdEndpoint(Api.Episode, id);
    }

    /** The second half of the load effect, given how the episode request
        settled and what the network answers for each character URL. Returns
        the character URLs it requested: none when the episode failed or lists
        no characters, otherwise the first twenty, in order. */
    method Finish(primary: Outcome<Episode>, network: string -> Api.HttpResponse<Character>)
      returns (requested: seq<string>)
      requires Valid()
      modifies this`episode, this`characters, this`loading, this`error
      ensures Valid() && !loading
      ensures primary.Fail? ==>
        requested == [] && episode == old(episode) && characters == old(characters) && error == Some(LoadError)
      ensures primary.Ok? ==>
        episode == Some(primary.value) && requested == Expansion.Slice(primary.value.characters, Expansion.DetailLimit)
      ensures primary.Ok? && requested == [] ==> characters == old(characters) && error == old(error)
      ensures primary.Ok? && requested != [] ==>
        var fetched := Expansion.All(requested, network);
        && (fetched.Ok? ==> characters == fetched.value && error == old(error))
        && (fetched.Fail? ==> characters == old(characters) && error == Some(LoadError))
      ensures old(error).None? ==>
        (View() == Content <==> primary.Ok? && (requested == [] || Expansion.All(requested, network).Ok?))
    {
      requested := [];
      match primary {
        case Fail =>
          error := Some(LoadError);
          loading := false;
        case Ok(data) =>
          episode := Some(data);
          if |data.characters| > 0 {
            requested := Expansion.Slice(data.characters, Expansion.DetailLimit);
            var fetched := Expansion.All(requested, network);
            match fetched {
              case Ok(list) =>
                characters := list;
              case Fail =>
                error := Some(LoadError);
            }
          }
          loading := false;
      }
    }

    /** Loading first, then the error, then nothing while no episode is known,
        and the episode otherwise. */
    function View(): View
      reads this
    {
      if loading then Spinner
      else if error.Some? && error.value != "" then ErrorPanel(error.value)
      else if episode.None? then Blank
      else Content
    }

    /** The featured characters section, shown when characters were fetched. */
    predicate ShowsFeatured()
      reads this
    {
      View() == Content && |characters| > 0
    }

    /** The "(Showing 20 of N)" notice in the heading of that section. */
    function FeaturedNotice(): Option<(int, int)>
      reads this
    {
      if ShowsFeatured() then Expansion.Notice(|episode.value.characters|) else None
    }
  }

  /** A failed character request hides the episode it follows: the error panel is
      shown although the episode is stored. */
  lemma ErrorHidesStoredEpisode(l: Loader)
    requires l.Valid() && !l.loading && l.error.Some? && l.episode.Some?
    ensures l.View() == ErrorPanel(LoadError)
  {
  }

  /** After a load that succeeded for an episode that lists characters, the
      section shows the characters fetched, and the notice appears exactly
      when characters were left out, with the number actually shown. */
  lemma FeaturedAfterLoad(l: Loader, e: Episode)
    requires l.View() == Content && l.episode == Some(e)
    requires e.characters != []
    requires |l.characters| == |Expansion.Slice(e.characters, Expansion.DetailLimit)|
    ensures l.ShowsFeatured()
    ensures l.FeaturedNotice().Some? <==> |e.characters| > Expansion.DetailLimit
    ensures l.FeaturedNotice().Some? ==> l.FeaturedNotice().value == (|l.characters|, |e.characters|)
  {
    Expansion.NoticeMatchesSlice(e.characters);
  }
}
