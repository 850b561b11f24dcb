/** The virtual-tour spots (VirtualEventContext.tsx): a list the
    administrator extends, edits and prunes. */
module VirtualEventContext {
  import opened Common

  datatype TourSpot = TourSpot(id: string, title: string, description: string, image: string, details: string)

  /** The argument of `addSpot`: a spot without its id. */
  datatype SpotData = SpotData(title: string, description: string, image: string, details: string)

  /** The argument of `editSpot`: a `Partial<TourSpot>`. */
  datatype SpotPatch = SpotPatch(id: Option<string>, title: Option<string>, description: Option<string>,
                                 image: Option<string>, details: Option<string>)

  /** The six built-in spots used when nothing is stored. */
  const InitialSpots: seq<TourSpot> := [
    TourSpot("1", "Organic Vegetable Garden",
      "Explore our sustainable organic vegetable gardens where we grow seasonal produce.",
      "https://source.unsplash.com/800x600/?organic,garden",
      "Our organic vegetable garden spans over 2 acres and features more than 30 different varieties of vegetables. We use companion planting techniques and natural pest control methods to ensure healthy crop growth."),
    TourSpot("2", "Livestock Area",
      "Visit our ethically managed livestock facilities and learn about animal care.",
      "https://source.unsplash.com/800x600/?farm,livestock",
      "Our livestock area houses free-range chickens, grass-fed cattle, and heritage breed pigs. All animals are raised following humane farming practices with plenty of space to roam."),
    TourSpot("3", "Greenhouse Complex",
      "Discover our modern greenhouse facilities where we cultivate year-round crops.",
      "https://source.unsplash.com/800x600/?greenhouse",
      "The greenhouse complex uses advanced climate control systems and hydroponics to grow vegetables and herbs throughout the year. We also use it as a nursery for starting new plants."),
    TourSpot("4", "Composting Station",
      "Learn about our sustainable waste management and composting practices.",
      "https://source.unsplash.com/800x600/?compost",
      "Our composting station processes farm waste into nutrient-rich soil amendments. We use both traditional composting methods and vermicomposting to create high-quality fertilizer."),
    TourSpot("5", "Farm Market",
      "Visit our on-site market where we sell fresh produce and farm products.",
      "https://source.unsplash.com/800x600/?farmers-market",
      "The farm market offers freshly harvested produce, eggs, honey, and other farm products. We also feature products from other local farmers and artisans."),
    TourSpot("6", "Educational Center",
      "Explore our educational facilities where we host workshops and training sessions.",
      "https://source.unsplash.com/800x600/?classroom,farm",
      "The educational center includes a classroom, demonstration kitchen, and hands-on learning areas. We offer regular workshops on farming, cooking, and sustainable living.")
  ]

  /** `{...spot, ...updates}`: every field the patch carries wins, the id
      included. */
  function Merge(s: TourSpot, p: SpotPatch): TourSpot
  {
    TourSpot(
      if p.id.Some? then p.id.value else s.id,
      if p.title.Some? then p.title.value else s.title,
      if p.description.Some? then p.description.value else s.description,
      if p.image.Some? then p.image.value else s.image,
      if p.details.Some? then p.details.value else s.details)
  }

  function Edited(ss: seq<TourSpot>, id: string, p: SpotPatch): (r: seq<TourSpot>)
    ensures |r| == |ss|
    ensures forall i :: 0 <= i < |ss| ==> r[i] == if ss[i].id == id then Merge(ss[i], p) else ss[i]
  {
    Map(ss, (s: TourSpot) => if s.id == id then Merge(s, p) else s)
  }

  function WithoutSpot(ss: seq<TourSpot>, id: string): (r: seq<TourSpot>)
    ensures forall i :: 0 <= i < |r| ==> r[i].id != id && r[i] in ss
    ensures forall i :: 0 <= i < |ss| && ss[i].id != id ==> ss[i] in r
  {
    Filter(ss, (s: TourSpot) => s.id != id)
  }

  function NewSpot(d: SpotData, id: string): TourSpot
  {
    TourSpot(id, d.title, d.description, d.image, d.details)
  }

  class SpotList {
    var spots: seq<TourSpot>

    /** The stored list, or the built-in spots when nothing is stored. */
    constructor (stored: Option<seq<TourSpot>>)
      ensures spots == if stored.Some? then stored.value else InitialSpots
    {
      if stored.Some? {
        spots := stored.value;
      } else {
        spots := InitialSpots;
      }
    }

    method AddSpot(d: SpotData, id: string)
      modifies this
      ensures spots == old(spots) + [NewSpot(d, id)]
    {
      spots := spots + [NewSpot(d, id)];
    }

    method EditSpot(id: string, p: SpotPatch)
      modifies this
      ensures spots == Edited(old(spots), id, p)
    {
      spots := Edited(spots, id, p);
    }

    method DeleteSpot(id: string)
      modifies this
      ensures spots == WithoutSpot(old(spots), id)
    {
      spots := WithoutSpot(spots, id);
    }
  }

  // -----------------------------------------------------------------------
  // Properties

  /** The built-in list has six spots with the ids "1" to "6", all
      distinct. */
  lemma InitialSpotsShape()
    ensures |InitialSpots| == 6
    ensures forall i :: 0 <= i < 6 ==> InitialSpots[i].id == [('1' as int + i) as char]
    ensures forall i, j :: 0 <= i < j < 6 ==> InitialSpots[i].id != InitialSpots[j].id
  {
  }

  /** `addSpot` adds exactly one spot at the end and keeps the others in
      place. */
  lemma AddSpotAppends(ss: seq<TourSpot>, d: SpotData, id: string)
    ensures var r := ss + [NewSpot(d, id)];
      |r| == |ss| + 1 && r[..|ss|] == ss && r[|ss|].id == id && r[|ss|].title == d.title
  {
  }

  /** An edit with an empty patch changes nothing, and an edit of an unknown
      id changes nothing. */
  lemma EditNeutral(ss: seq<TourSpot>, id: string, p: SpotPatch)
    ensures Edited(ss, id, SpotPatch(None, None, None, None, None)) == ss
    ensures (forall i :: 0 <= i < |ss| ==> ss[i].id != id) ==> Edited(ss, id, p) == ss
  {
  }

  /** The patch may rename a spot: after the edit, no spot carries the old
      id any more, so a second edit with that id does nothing. */
  lemma EditCanRename(s: TourSpot, newId: string)
    requires s.id != newId
    ensures var r := Edited([s], s.id, SpotPatch(Some(newId), None, None, None, None));
      r == [s.(id := newId)] && Edited(r, s.id, SpotPatch(None, Some("x"), None, None, None)) == r
  {
  }

  /** `deleteSpot` keeps the other spots in order (it distributes over
      concatenation) and leaves no spot with the id. */
  lemma DeleteSpotKeepsOrder(ss: seq<TourSpot>, more: seq<TourSpot>, id: string)
    ensures WithoutSpot(ss + more, id) == WithoutSpot(ss, id) + WithoutSpot(more, id)
    ensures WithoutSpot(WithoutSpot(ss, id), id) == WithoutSpot(ss, id)
  {
    FilterConcat(ss, more, (s: TourSpot) => s.id != id);
    FilterIdempotent(ss, (s: TourSpot) => s.id != id);
  }
}
