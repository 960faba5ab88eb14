/** The character card of the listing grid; its only logic is the colour of
    the status badge. */
module CharacterCard {
  import Text
  import opened Catalog

  /** `getStatusColor(status)`: the lower-cased status chooses the badge,
      "alive" green, "dead" red and anything else gray. */
  function StatusColor(status: string): (badge: StatusBadge)
    ensures badge == Green <==> Text.Lower(status) == "alive"
    ensures badge == Red <==> Text.Lower(status) == "dead"
    ensures badge == Gray <==> Text.Lower(status) != "alive" && Text.Lower(status) != "dead"
  {
    match Text.Lower(status)
    case "alive" => Green
    case "dead" => Red
    case _ => Gray
  }

  /** Letter case plays no part: two statuses that agree once lower-cased, and
      a status and its lower-cased form, get the same badge. */
  lemma StatusColorIgnoresCase(s: string, t: string)
    requires Text.Lower(s) == Text.Lower(t)
    ensures StatusColor(s) == StatusColor(t)
    ensures StatusColor(Text.Lower(s)) == StatusColor(s)
  {
    Text.LowerIdempotent(s);
  }

  /** The statuses the catalog sends, as it writes them. */
  lemma CatalogStatuses()
    ensures StatusColor("Alive") == Green
    ensures StatusColor("Dead") == Red
    ensures StatusColor("unknown") == Gray
  {
  }
}
