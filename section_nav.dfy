/**
 * The active navigation link: when a section scrolls into the top of the
 * viewport, the links (desktop and mobile menus alike) that point at it get
 * `nav-active` and every other link loses it.
 */
module SectionNav {
  import opened ClassList
  import opened Wrappers

  const NAV_ACTIVE := "nav-active"

  /** One intersection record handed to the observer's callback. */
  datatype Entry = Entry(sectionId: string, isIntersecting: bool)

  /** A link points at a section when its `href` is `#` followed by the section's id. */
  predicate LinksTo(href: Option<string>, sectionId: string): (b: bool)
    ensures b ==> href.Some? && |href.value| > 0 && href.value[0] == '#' && href.value[1..] == sectionId
    ensures href.None? ==> !b
    ensures (href.Some? && |href.value| == |sectionId| + 1 && href.value[0] == '#' &&
             href.value[1..] == sectionId) ==> b
  {
    assert (href.Some? && |href.value| == |sectionId| + 1 && href.value[0] == '#' &&
            href.value[1..] == sectionId) ==> href.value == [href.value[0]] + href.value[1..] == "#" + sectionId;
    href == Some("#" + sectionId)
  }

  /** One link's classes after a section is highlighted. */
  function MarkLink(link: ClassSet, href: Option<string>, sectionId: string): (r: ClassSet)
    ensures NAV_ACTIVE in r <==> LinksTo(href, sectionId)
    ensures r - {NAV_ACTIVE} == link - {NAV_ACTIVE}
  {
    var cleared := Remove(link, {NAV_ACTIVE});
    if LinksTo(href, sectionId) then Add(cleared, {NAV_ACTIVE}) else cleared
  }

  /** Every link's classes after section `sectionId` is highlighted. */
  function Highlight(links: seq<ClassSet>, hrefs: seq<Option<string>>, sectionId: string): (r: seq<ClassSet>)
    requires |links| == |hrefs|
    ensures |r| == |links|
    ensures forall k :: 0 <= k < |r| ==> (NAV_ACTIVE in r[k] <==> LinksTo(hrefs[k], sectionId))
    ensures forall k :: 0 <= k < |r| ==> r[k] - {NAV_ACTIVE} == links[k] - {NAV_ACTIVE}
  {
    seq(|links|, k requires 0 <= k < |links| => MarkLink(links[k], hrefs[k], sectionId))
  }

  /** The id of the last intersecting entry of a batch, if any entry intersects. */
  function LastIntersecting(entries: seq<Entry>): (r: Option<string>)
    ensures r.None? <==> forall i :: 0 <= i < |entries| ==> !entries[i].isIntersecting
    ensures r.Some? ==> exists i :: 0 <= i < |entries| && entries[i].isIntersecting &&
                          entries[i].sectionId == r.value &&
                          forall j :: i < j < |entries| ==> !entries[j].isIntersecting
  {
    if entries == [] then None
    else if entries[|entries| - 1].isIntersecting then Some(entries[|entries| - 1].sectionId)
    else
      var r := LastIntersecting(entries[..|entries| - 1]);
      assert forall i :: 0 <= i < |entries| - 1 ==> entries[..|entries| - 1][i] == entries[i];
      r
  }

  /** The links after a batch of entries: the last intersecting section wins; no intersection changes nothing. */
  function AfterEntries(links: seq<ClassSet>, hrefs: seq<Option<string>>, entries: seq<Entry>): (r: seq<ClassSet>)
    requires |links| == |hrefs|
    ensures |r| == |links|
    ensures LastIntersecting(entries).None? ==> r == links
    ensures LastIntersecting(entries).Some? ==>
              forall k :: 0 <= k < |r| ==>
                (NAV_ACTIVE in r[k] <==> LinksTo(hrefs[k], LastIntersecting(entries).value))
    ensures forall k :: 0 <= k < |r| ==> r[k] - {NAV_ACTIVE} == links[k] - {NAV_ACTIVE}
  {
    match LastIntersecting(entries)
    case None => links
    case Some(id) => Highlight(links, hrefs, id)
  }

  /** A later highlight overrides an earlier one completely. */
  lemma HighlightOverrides(links: seq<ClassSet>, hrefs: seq<Option<string>>, first: string, second: string)
    requires |links| == |hrefs|
    ensures Highlight(Highlight(links, hrefs, first), hrefs, second) == Highlight(links, hrefs, second)
  {
    var a := Highlight(Highlight(links, hrefs, first), hrefs, second);
    var b := Highlight(links, hrefs, second);
    forall k | 0 <= k < |a|
      ensures a[k] == b[k]
    {
      assert NAV_ACTIVE in a[k] <==> NAV_ACTIVE in b[k];
      assert a[k] - {NAV_ACTIVE} == b[k] - {NAV_ACTIVE};
    }
  }

  /** The active links are exclusive: any two of them point at the same section. */
  lemma ActiveLinksExclusive(links: seq<ClassSet>, hrefs: seq<Option<string>>, sectionId: string, k1: int, k2: int)
    requires |links| == |hrefs|
    requires 0 <= k1 < |links| && 0 <= k2 < |links|
    requires NAV_ACTIVE in Highlight(links, hrefs, sectionId)[k1]
    requires NAV_ACTIVE in Highlight(links, hrefs, sectionId)[k2]
    ensures hrefs[k1] == hrefs[k2] == Some("#" + sectionId)
  {
  }

  /** The navigation links (desktop and mobile menus) with their `href`s and class lists. */
  class NavLinks {
    const hrefs: seq<Option<string>>
    const links: array<ClassSet>

    ghost predicate Valid()
      reads this
    {
      links.Length == |hrefs|
    }

    /** The links as the page's markup gives them. */
    constructor (hrefs: seq<Option<string>>, markup: seq<ClassSet>)
      requires |markup| == |hrefs|
      ensures Valid() && fresh(links)
      ensures this.hrefs == hrefs && links[..] == markup
    {
      this.hrefs := hrefs;
      links := new ClassSet[|markup|](k requires 0 <= k < |markup| => markup[k]);
    }

    /** The inner loop for one intersecting section: clear `nav-active` on each link, re-add it on matches. */
    method HighlightSection(sectionId: string)
      requires Valid()
      modifies links
      ensures links[..] == Highlight(old(links[..]), hrefs, sectionId)
    {
      var i := 0;
      while i < links.Length
        invariant 0 <= i <= links.Length
        invariant forall k :: 0 <= k < i ==> links[k] == MarkLink(old(links[k]), hrefs[k], sectionId)
        invariant forall k :: i <= k < links.Length ==> links[k] == old(links[k])
      {
        links[i] := Remove(links[i], {NAV_ACTIVE});
        if hrefs[i] == Some("#" + sectionId) {
          links[i] := Add(links[i], {NAV_ACTIVE});
        }
        i := i + 1;
      }
    }

    /** The section observer's callback over one batch of entries. */
    method OnIntersection(entries: seq<Entry>)
      requires Valid()
      modifies links
      ensures links[..] == AfterEntries(old(links[..]), hrefs, entries)
      ensures LastIntersecting(entries).None? ==> links[..] == old(links[..])
      ensures LastIntersecting(entries).Some? ==>
                forall k :: 0 <= k < links.Length ==>
                  (NAV_ACTIVE in links[k] <==> LinksTo(hrefs[k], LastIntersecting(entries).value))
    {
      var i := 0;
      while i < |entries|
        invariant 0 <= i <= |entries|
        invariant links[..] == AfterEntries(old(links[..]), hrefs, entries[..i])
      {
        assert entries[..i + 1][..i] == entries[..i];
        if entries[i].isIntersecting {
          if LastIntersecting(entries[..i]).Some? {
            HighlightOverrides(old(links[..]), hrefs, LastIntersecting(entries[..i]).value, entries[i].sectionId);
          }
          HighlightSection(entries[i].sectionId);
        }
        i := i + 1;
      }
      assert entries[..i] == entries;
    }
  }
}
