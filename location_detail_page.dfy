/** The location detail page: the location named by the route, the first
    twenty of its residents, the icon of its type and the badge of each
    resident's status. */
module LocationDetailPage {
  import opened Wrappers
  import opened Catalog
  import Text
  import Api
  import Expansion
  import CharacterCard
  import LocationCard

  const LoadError := "Failed to load location details. Please try again later."

  /** What the page renders, in the order the component tests for it. */
  datatype View = Spinner | ErrorPanel(message: string) | Blank | Content

  /** The state of the page component. */
  class Loader {
    var location: Option<Location>
    var residents: seq<Character>
    var loading: bool
    var error: Option<string>

    /** The spinner and the error are never both set, and the only error is
        the fixed message. */
    predicate Valid()
      reads this
    {
      (loading ==> error.None?) && (error.Some? ==> error.value == LoadError)
    }

    constructor()
      ensures Valid()
      ensures location.None? && residents == [] && loading && error.None?
    {
      location := None;
      residents := [];
      loading := true;
      error := None;
    }

    /** The first half of the load effect: spinner on, error cleared, and the
        location of the route requested. The location shown before stays
        until the new one arrives. */
    method Start(id: string) returns (endpoint: string)
      requires Valid()
      modifies this`loading, this`error
      ensures Valid()
      ensures loading && error.None? && View() == Spinner
      ensures endpoint == Api.ByIdEndpoint(Api.Location, id)
    {
      loading := true;
      error := None;
      endpoint := Api.ByIdEndpoint(Api.Location, id);
    }

    /** The second half of the load effect, given how the location request
        settled and what the network answers for each resident URL. Returns
        the resident URLs it requested: none when the location failed or lists
        no residents, otherwise the first twenty, in order. A location without
        residents leaves the residents fetched before in place. */
    method Finish(primary: Outcome<Location>, network: string -> Api.HttpResponse<Character>)
      returns (requested: seq<string>)
      requires Valid()
      modifies this`location, this`residents, this`loading, this`error
      ensures Valid() && !loading
      ensures primary.Fail? ==>
        requested == [] && location == old(location) && residents == old(residents) && error == Some(LoadError)
      ensures primary.Ok? ==>
        location == Some(primary.value) && requested == Expansion.Slice(primary.value.residents, Expansion.DetailLimit)
      ensures primary.Ok? && requested == [] ==> residents == old(residents) && error == old(error)
      ensures primary.Ok? && requested != [] ==>
        var fetched := Expansion.All(requested, network);
        && (fetched.Ok? ==> residents == fetched.value && error == old(error))
        && (fetched.Fail? ==> residents == old(residents) && error == Some(LoadError))
      ensures old(error).None? ==>
        (View() == Content <==> primary.Ok? && (requested == [] || Expansion.All(requested, network).Ok?))
    {
      requested := [];
      match primary {
        case Fail =>
          error := Some(LoadError);
          loading := false;
        case Ok(data) =>
          location := Some(data);
          if |data.residents| > 0 {
            requested := Expansion.Slice(data.residents, Expansion.DetailLimit);
            var fetched := Expansion.All(requested, network);
            match fetched {
              case Ok(list) =>
                residents := list;
              case Fail =>
                error := Some(LoadError);
            }
          }
          loading := false;
      }
    }

    /** Loading first, then the error, then nothing while no location is
        known, and the location otherwise. */
    function View(): View
      reads this
    {
      if loading then Spinner
      else if error.Some? && error.value != "" then ErrorPanel(error.value)
      else if location.None? then Blank
      else Content
    }

    /** The residents section, shown when residents were fetched. */
    predicate ShowsResidents()
      reads this
    {
      View() == Content && |residents| > 0
    }

    /** The "(Showing 20 of N)" notice in the heading of that section. */
    function ResidentsNotice(): Option<(int, int)>
      reads this
    {
      if ShowsResidents() then Expansion.Notice(|location.value.residents|) else None
    }

    /** "No known residents at this location.": decided by the residents the
        location lists, not by those fetched. */
    predicate ShowsNoResidents()
      reads this
    {
      View() == Content && |location.value.residents| == 0
    }
  }

  /** A failed resident request hides the location it follows: the error panel is
      shown although the location is stored. */
  lemma ErrorHidesStoredLocation(l: Loader)
    requires l.Valid() && !l.loading && l.error.Some? && l.location.Some?
    ensures l.View() == ErrorPanel(LoadError)
  {
  }

  /** After a load that succeeded for a location that lists residents, the
      section shows the residents fetched, the notice appears exactly when
      residents were left out, with the number actually shown, and the
      no-residents message is hidden. */
  lemma ResidentsAfterLoad(l: Loader, loc: Location)
    requires l.View() == Content && l.location == Some(loc)
    requires loc.residents != []
    requires |l.residents| == |Expansion.Slice(loc.residents, Expansion.DetailLimit)|
    ensures l.ShowsResidents() && !l.ShowsNoResidents()
    ensures l.ResidentsNotice().Some? <==> |loc.residents| > Expansion.DetailLimit
    ensures l.ResidentsNotice().Some? ==> l.ResidentsNotice().value == (|l.residents|, |loc.residents|)
  {
    Expansion.NoticeMatchesSlice(loc.residents);
  }

  /** Because residents are not cleared, when the route's id changes while the
      page stays mounted, a location without residents shown after one with
      residents shows both the old residents and the message that there are
      none. A fresh mount starts from no residents, so then only the message
      shows. */
  lemma StaleResidentsBesideNoResidents(l: Loader)
    requires l.View() == Content && l.location.Some? && l.location.value.residents == []
    ensures l.ShowsNoResidents()
    ensures l.ShowsResidents() <==> |l.residents| > 0
  {
  }

  /** `getLocationIcon(type)`: planet, then dimension, then space, then
      cluster, looked for in the lower-cased type; the globe otherwise. */
  function LocationIcon(locationType: string): (icon: Icon)
    ensures icon == Planet <==> Text.Contains(Text.Lower(locationType), "planet")
    ensures icon == Star <==>
      !Text.Contains(Text.Lower(locationType), "planet") && !Text.Contains(Text.Lower(locationType), "dimension")
      && !Text.Contains(Text.Lower(locationType), "space") && Text.Contains(Text.Lower(locationType), "cluster")
  {
    if Text.Contains(Text.Lower(locationType), "planet") then Planet
    else if Text.Contains(Text.Lower(locationType), "dimension") then Galaxy
    else if Text.Contains(Text.Lower(locationType), "space") then Rocket
    else if Text.Contains(Text.Lower(locationType), "cluster") then Star
    else Globe
  }

  /** The card of the listing and the detail page agree on every type except
      a cluster that is none of the earlier kinds: the detail page shows the
      star, the card the globe. */
  lemma CardIconAgrees(locationType: string)
    ensures LocationCard.CardIcon(locationType) ==
      if LocationIcon(locationType) == Star then Globe else LocationIcon(locationType)
  {
  }

  /** Letter case plays no part in the icon. */
  lemma LocationIconIgnoresCase(s: string, t: string)
    requires Text.Lower(s) == Text.Lower(t)
    ensures LocationIcon(s) == LocationIcon(t)
  {
  }

  /** The badge of a resident: the lower-cased status compared with "alive",
      then with "dead". */
  function ResidentBadge(status: string): (badge: StatusBadge)
    ensures badge == CharacterCard.StatusColor(status)
  {
    if Text.Lower(status) == "alive" then Green
    else if Text.Lower(status) == "dead" then Red
    else Gray
  }
}
