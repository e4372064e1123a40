/** The facet registry of multimodal/dataset/facet/__init__.py: an HDF5
    group is a facet when it carries a `FacetHandler` attribute, and the
    attribute's value picks the handler class that reads it. The HDF5 group
    is reduced to its attributes and the names of its datasets. */
module Facets {

  import opened Wrappers
  import opened Dicts

  /** An HDF5 attribute value: a string or a number. */
  datatype Value = Str(s: string) | Num(n: int)

  /** A group as the facet code reads it: its attributes, in creation order,
      and the names of its datasets. */
  datatype Group = Group(attrs: Dict<string, Value>, datasets: seq<string>)

  /** The three handler classes. */
  datatype Kind = Video | Audio | Subtitle

  /** A handler object: its class and the group it wraps. */
  datatype Facet = Facet(kind: Kind, group: Group)

  const HandlerAttr := "FacetHandler"

  /** The tag each handler class is registered under. */
  function Tag(k: Kind): string {
    match k
    case Video => "VideoFacet"
    case Audio => "AudioFacet"
    case Subtitle => "SubtitleFacet"
  }

  /** The datasets a handler's constructor reads, in the order it reads them:
      `VideoFacet` opens `frames`, `SubtitleFacet` its five datasets, and
      `AudioFacet` nothing. */
  function Required(k: Kind): seq<string> {
    match k
    case Video => ["frames"]
    case Audio => []
    case Subtitle => ["strings", "string_index", "times", "string_styles", "string_colors"]
  }

  /** The datasets a handler's `create_facet` writes. */
  function Written(k: Kind): seq<string> {
    match k
    case Video => ["frames"]
    case Audio => ["sound"]
    case Subtitle => ["times", "string_index", "strings", "string_colors", "string_styles"]
  }

  /** `is_facet(group)`. */
  predicate IsFacet(g: Group) {
    HandlerAttr in Keys(g.attrs)
  }

  /** The handler class a tag value names, if any. */
  function KindOf(v: Value): (r: Option<Kind>)
    ensures r.Some? ==> v == Str(Tag(r.value))
    ensures r.None? ==> forall k :: v != Str(Tag(k))
  {
    if v == Str("VideoFacet") then Some(Video)
    else if v == Str("AudioFacet") then Some(Audio)
    else if v == Str("SubtitleFacet") then Some(Subtitle)
    else None
  }

  /** The first of `names` missing from `datasets`. */
  function FirstMissing(names: seq<string>, datasets: seq<string>): (r: Option<string>)
    ensures r.None? <==> forall n :: n in names ==> n in datasets
    ensures r.Some? ==> r.value in names && r.value !in datasets
    decreases |names|
  {
    if |names| == 0 then None
    else if names[0] !in datasets then Some(names[0])
    else FirstMissing(names[1..], datasets)
  }

  /** The decimal digits of `n`, as `str.format` writes an integer. */
  function Decimal(n: int): (s: string)
    ensures |s| > 0
    decreases if n < 0 then 1 - n else n
  {
    if n < 0 then "-" + Decimal(-n)
    else if n < 10 then ["0123456789"[n]]
    else Decimal(n / 10) + ["0123456789"[n % 10]]
  }

  function Show(v: Value): string {
    match v
    case Str(s) => s
    case Num(n) => Decimal(n)
  }

  /** `make_facet(group)`: a group without the attribute raises `KeyError`,
      an unknown tag `NotImplementedError`, and a handler whose constructor
      opens a missing dataset `KeyError` naming it. */
  function MakeFacet(g: Group): (r: Result<Facet>)
    ensures !IsFacet(g) ==> r == Err(KeyError(HandlerAttr))
    ensures IsFacet(g) && KindOf(Get(g.attrs, HandlerAttr).value).None? ==> r.Err? && r.error.NotImplementedError?
    ensures r.Ok? <==> IsFacet(g) && exists k :: Get(g.attrs, HandlerAttr) == Some(Str(Tag(k)))
                                                && forall n :: n in Required(k) ==> n in g.datasets
    ensures r.Ok? ==> r.value.group == g && Get(g.attrs, HandlerAttr) == Some(Str(Tag(r.value.kind)))
    ensures r.Err? && IsFacet(g) && KindOf(Get(g.attrs, HandlerAttr).value).Some? ==>
              r.error.KeyError? && r.error.key in Required(KindOf(Get(g.attrs, HandlerAttr).value).value)
              && r.error.key !in g.datasets
  {
    match Get(g.attrs, HandlerAttr)
    case None => Err(KeyError(HandlerAttr))
    case Some(v) =>
      match KindOf(v)
      case None => Err(NotImplementedError("Could not find facet handler " + Show(v)))
      case Some(k) =>
        match FirstMissing(Required(k), g.datasets)
        case Some(n) => Err(KeyError(n))
        case None => Ok(Facet(k, g))
  }

  /** `create_facet` of each handler class on a group: the datasets it
      writes, a `rate` attribute for video and audio, and the class's tag. */
  function CreateFacetGroup(k: Kind, g: Group, rate: int): (c: Group)
    ensures Get(c.attrs, HandlerAttr) == Some(Str(Tag(k)))
    ensures forall n :: n in Written(k) ==> n in c.datasets
  {
    var tagged := match k
      case Video => Set(Set(g.attrs, HandlerAttr, Str(Tag(k))), "rate", Num(rate))
      case Audio => Set(Set(g.attrs, "rate", Num(rate)), HandlerAttr, Str(Tag(k)))
      case Subtitle => Set(g.attrs, HandlerAttr, Str(Tag(k)));
    SetGet(g.attrs, HandlerAttr, Str(Tag(k)), HandlerAttr);
    SetGet(Set(g.attrs, HandlerAttr, Str(Tag(k))), "rate", Num(rate), HandlerAttr);
    SetGet(Set(g.attrs, "rate", Num(rate)), HandlerAttr, Str(Tag(k)), HandlerAttr);
    Group(tagged, g.datasets + Written(k))
  }

  /** Each creator writes the tag its reader is dispatched on and the
      datasets that reader opens, so reading a freshly created facet gives
      back a handler of the same class over the same group. */
  lemma CreatedFacetDispatch(k: Kind, g: Group, rate: int)
    ensures MakeFacet(CreateFacetGroup(k, g, rate)) == Ok(Facet(k, CreateFacetGroup(k, g, rate)))
  {
    var c := CreateFacetGroup(k, g, rate);
    assert forall n :: n in Required(k) ==> n in Written(k);
  }

  /** A tag other than the three registered ones raises `NotImplementedError`,
      whatever the group holds. */
  lemma UnknownTagRejected(g: Group, tag: string)
    requires Get(g.attrs, HandlerAttr) == Some(Str(tag))
    requires tag != "VideoFacet" && tag != "AudioFacet" && tag != "SubtitleFacet"
    ensures MakeFacet(g) == Err(NotImplementedError("Could not find facet handler " + tag))
  {
  }
}
