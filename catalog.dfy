/** The fixed, ordered catalog of update announcements and its two lookups.
    Each message text is stood in for by a short headline of the announcement:
    the texts themselves, their link substitution and newline folding are not
    part of this model. */
module Catalog {
  import opened Wrappers

  datatype Announcement = Announcement(level: int, message: string)

  /** The catalog, in delivery order. */
  const Announcements: seq<Announcement> := [
    Announcement(1, "Introducing Zulip updates"),
    Announcement(2, "Formatted paste"),
    Announcement(3, "Combined feed"),
    Announcement(4, "Channels"),
    Announcement(5, "Reactions view"),
    Announcement(6, "Channel feed")
  ]

  /** Catalog levels run 1, 2, ... without gaps, in order. */
  ghost predicate ConsecutiveLevels(c: seq<Announcement>)
  {
    forall i :: 0 <= i < |c| ==> c[i].level == i + 1
  }

  /** The level of the catalog's last entry, which is its highest level. */
  function LatestLevel(): (r: int)
    ensures r == |Announcements| == 6
    ensures ConsecutiveLevels(Announcements)
    ensures forall i :: 0 <= i < |Announcements| ==> 1 <= Announcements[i].level <= r
    ensures Announcements[|Announcements| - 1].level == r
  {
    Announcements[|Announcements| - 1].level
  }

  datatype CatalogError = IndexError

  /** Python's `list[i]`: negative indices count from the end. */
  function PyIndex<T>(s: seq<T>, i: int): (r: Result<T, CatalogError>)
    ensures r.Success? <==> -|s| <= i < |s|
    ensures 0 <= i < |s| ==> r == Success(s[i])
    ensures -|s| <= i < 0 ==> r == Success(s[|s| + i])
  {
    if 0 <= i < |s| then Success(s[i])
    else if -|s| <= i < 0 then Success(s[|s| + i])
    else Failure(IndexError)
  }

  /** The lookup as the source writes it: entry `level - 1` of the catalog,
      with Python's wrap-around for negative positions. */
  function MessageForLevel(level: int): (r: Result<string, CatalogError>)
    ensures r.Success? <==> 1 - |Announcements| <= level <= |Announcements|
    ensures 1 <= level <= LatestLevel() ==> r == Success(Announcements[level - 1].message)
  {
    match PyIndex(Announcements, level - 1)
    case Success(a) => Success(a.message)
    case Failure(e) => Failure(e)
  }

  /** As written, level 0 is not refused: it yields the latest announcement. */
  lemma MessageForLevelZeroIsLatest()
    ensures MessageForLevel(0) == Success(Announcements[LatestLevel() - 1].message)
    ensures Announcements[LatestLevel() - 1].level != 0
  {
  }

  /** The lookup as intended: defined exactly for catalog levels, and the
      entry it reads is the one carrying that level. */
  function CheckedMessageForLevel(level: int): (r: Result<string, CatalogError>)
    ensures r.Success? <==> 1 <= level <= LatestLevel()
    ensures r.Success? ==> exists i :: 0 <= i < |Announcements| && Announcements[i].level == level && r.value == Announcements[i].message
  {
    if 1 <= level <= |Announcements| then
      assert Announcements[level - 1].level == level;
      Success(Announcements[level - 1].message)
    else Failure(IndexError)
  }

  /** On every catalog level the two lookups agree. */
  lemma LookupsAgreeOnCatalogLevels(level: int)
    requires 1 <= level <= LatestLevel()
    ensures MessageForLevel(level) == CheckedMessageForLevel(level)
    ensures MessageForLevel(level) == Success(Announcements[level - 1].message)
  {
  }
}
