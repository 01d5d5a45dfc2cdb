/** The bitmap loader of the GUI: a bounded cache of bitmaps that evicts the
    oldest entry first, the file-name rule for the scaled variants of an
    image, and the search for the largest variant no bigger than the
    display's resolution scale. */
module Bitmaps {
  import opened Wrappers

  /** The bytes of an image file, as the image store hands them out. */
  type Image = seq<bv8>

  /** A bitmap made from `image`, which was found at resolution scale `scale`. */
  datatype Bitmap = Bitmap(image: Image, scale: int)

  /** Capacity of the bitmap cache. */
  const MaxCachedBitmaps: nat := 500

  // ---------------------------------------------------------------------
  // File names of the image variants
  // ---------------------------------------------------------------------

  function DigitChar(d: nat): char
    requires d < 10
  {
    "0123456789"[d]
  }

  /** Decimal digits of `n`, most significant first. */
  function NatToString(n: nat): (s: string)
    ensures |s| >= 1
  {
    if n < 10 then [DigitChar(n)] else NatToString(n / 10) + [DigitChar(n % 10)]
  }

  /** An integer as Python's `format` writes it. */
  function IntToString(n: int): (s: string)
    ensures |s| >= 1
  {
    if n < 0 then "-" + NatToString(-n) else NatToString(n)
  }

  /** `<name>@<scale>x.png`. */
  function ScaledFileName(name: string, scale: int): string
  {
    name + "@" + IntToString(scale) + "x.png"
  }

  /** `<name>.png`. */
  function PlainFileName(name: string): string
  {
    name + ".png"
  }

  /** The file name tried last and the image it gave, if any. */
  datatype ScaledLoad = ScaledLoad(filename: string, img: Option<Image>)

  /** Loads the variant of image `name` for resolution `scale`; at scale 1 an
      image without a scale suffix is the fallback. */
  function LoadScaledBitmap(loadImage: (string, string) -> Option<Image>, name: string, location: string, scale: int := 1)
    : (r: ScaledLoad)
    // the image returned is the one stored under the file name returned
    ensures r.img == loadImage(r.filename, location)
    // the scaled name is tried first; the plain name only at scale 1, after
    // the scaled name found nothing
    ensures r.filename == PlainFileName(name) <==> scale == 1 && loadImage(ScaledFileName(name, 1), location).None?
    ensures r.filename != PlainFileName(name) ==> r.filename == ScaledFileName(name, scale)
    ensures r.img.Some? <==>
      || loadImage(ScaledFileName(name, scale), location).Some?
      || (scale == 1 && loadImage(PlainFileName(name), location).Some?)
  {
    var filename := ScaledFileName(name, scale);
    var img := loadImage(filename, location);
    assert |filename| > |PlainFileName(name)|;
    if img.None? && scale == 1 then
      ScaledLoad(PlainFileName(name), loadImage(PlainFileName(name), location))
    else
      ScaledLoad(filename, img)
  }

  // ---------------------------------------------------------------------
  // The largest available scale
  // ---------------------------------------------------------------------

  predicate Available(loadImage: (string, string) -> Option<Image>, name: string, location: string, scale: int)
  {
    LoadScaledBitmap(loadImage, name, location, scale).img.Some?
  }

  /** The first scale, counting down from `scale` to 1, that `avail` accepts. */
  function CountDown(avail: int -> bool, scale: int): Option<int>
    decreases scale
  {
    if scale <= 0 then None
    else if avail(scale) then Some(scale)
    else CountDown(avail, scale - 1)
  }

  /** Counting down finds the largest accepted scale no greater than the
      starting one, and finds nothing only when no scale from 1 up is
      accepted. */
  lemma {:induction false} CountDownIsLargest(avail: int -> bool, scale: int)
    ensures match CountDown(avail, scale)
      case Some(k) => 1 <= k <= scale && avail(k) && forall j :: k < j <= scale ==> !avail(j)
      case None => forall j :: 1 <= j <= scale ==> !avail(j)
    decreases scale
  {
    if scale > 0 && !avail(scale) {
      CountDownIsLargest(avail, scale - 1);
    }
  }

  /** The first scale, counting down from `scale` to 1, whose variant loads. */
  function FindScale(loadImage: (string, string) -> Option<Image>, name: string, location: string, scale: int)
    : (r: Option<int>)
    ensures match r
      case Some(k) =>
        && 1 <= k <= scale
        && Available(loadImage, name, location, k)
        && forall j :: k < j <= scale ==> !Available(loadImage, name, location, j)
      case None =>
        forall j :: 1 <= j <= scale ==> !Available(loadImage, name, location, j)
  {
    var avail := k => Available(loadImage, name, location, k);
    CountDownIsLargest(avail, scale);
    assert forall j :: avail(j) == Available(loadImage, name, location, j);
    CountDown(avail, scale)
  }

  /** What loading bitmap `name` gives: the variant at the largest available
      scale, or nothing. */
  function LoadedBitmap(loadImage: (string, string) -> Option<Image>, resScale: int, name: string, location: string)
    : Option<Bitmap>
  {
    match FindScale(loadImage, name, location, resScale)
    case None => None
    case Some(k) =>
      Some(Bitmap(LoadScaledBitmap(loadImage, name, location, k).img.value, k))
  }

  // ---------------------------------------------------------------------
  // The cache, as values
  // ---------------------------------------------------------------------

  /** Keys in insertion order, oldest first, without repeats, and exactly the
      keys of the entries. */
  ghost predicate OrderedKeys<V>(order: seq<string>, entries: map<string, V>)
  {
    && (forall i, j :: 0 <= i < j < |order| ==> order[i] != order[j])
    && (forall key :: key in entries <==> key in order)
  }

  /** Dropping the newest key from the order and from the entries keeps
      them in step. */
  lemma OrderedKeysDropNewest<V>(order: seq<string>, entries: map<string, V>)
    requires OrderedKeys(order, entries)
    requires order != []
    ensures OrderedKeys(order[..|order| - 1], entries - {order[|order| - 1]})
  {
    var k := order[|order| - 1];
    var rest := order[..|order| - 1];
    forall key ensures key in entries - {k} <==> key in rest {
      if key in rest {
        var i :| 0 <= i < |rest| && rest[i] == key;
        assert order[i] != order[|order| - 1];
      }
      if key in order && key != k {
        var i :| 0 <= i < |order| && order[i] == key;
        assert i < |order| - 1;
        assert rest[i] == key;
      }
    }
  }

  /** The cache holds exactly as many entries as its key order lists, so
      the order's length measures the cache's size. */
  lemma {:induction false} OrderedKeysCount<V>(order: seq<string>, entries: map<string, V>)
    requires OrderedKeys(order, entries)
    ensures |entries| == |order|
  {
    if order == [] {
      assert entries.Keys == {};
    } else {
      var k := order[|order| - 1];
      var e := entries - {k};
      OrderedKeysDropNewest(order, entries);
      OrderedKeysCount(order[..|order| - 1], e);
      assert k in entries;
      assert entries.Keys == e.Keys + {k};
    }
  }

  /** The cache after a cached lookup of `path`; `onMiss` is what loading the
      bitmap would give. `loaded` tells whether the loader was called. */
  datatype CacheStep = CacheStep(order: seq<string>, entries: map<string, Option<Bitmap>>, bmp: Option<Bitmap>, loaded: bool)

  /** The eviction step: a full cache drops its oldest entry. */
  function EvictIfFull(order: seq<string>, entries: map<string, Option<Bitmap>>)
    : (seq<string>, map<string, Option<Bitmap>>)
  {
    if |order| == MaxCachedBitmaps then (order[1..], entries - {order[0]}) else (order, entries)
  }

  function CachedGet(order: seq<string>, entries: map<string, Option<Bitmap>>, path: string, onMiss: Option<Bitmap>)
    : CacheStep
  {
    var (order1, entries1) := EvictIfFull(order, entries);
    if path !in entries1 then CacheStep(order1 + [path], entries1[path := onMiss], onMiss, true)
    else CacheStep(order1, entries1, entries1[path], false)
  }

  /** A cached lookup keeps the keys in order, leaves `path` mapped to the
      bitmap it returns, and never grows a cache past its capacity. */
  lemma CachedGetKeepsCache(order: seq<string>, entries: map<string, Option<Bitmap>>, path: string, onMiss: Option<Bitmap>)
    requires OrderedKeys(order, entries)
    ensures var r := CachedGet(order, entries, path, onMiss);
      && OrderedKeys(r.order, r.entries)
      && path in r.entries && r.entries[path] == r.bmp
      && (|order| <= MaxCachedBitmaps ==> |r.order| <= MaxCachedBitmaps)
      && (|entries| <= MaxCachedBitmaps ==> |r.entries| <= MaxCachedBitmaps)
  {
    var (order1, entries1) := EvictIfFull(order, entries);
    if |order| == MaxCachedBitmaps {
      forall key ensures key in entries1 <==> key in order1 {
        if key in order1 {
          var i :| 0 <= i < |order1| && order1[i] == key;
          assert order[i + 1] == key;
        }
      }
    }
    var r := CachedGet(order, entries, path, onMiss);
    OrderedKeysCount(order, entries);
    OrderedKeysCount(r.order, r.entries);
  }

  /** A hit returns the stored bitmap without loading and leaves the entries
      and their order alone (apart from the eviction). */
  lemma CachedGetHit(order: seq<string>, entries: map<string, Option<Bitmap>>, path: string, onMiss: Option<Bitmap>)
    requires OrderedKeys(order, entries)
    requires path in entries
    requires |order| < MaxCachedBitmaps || path != order[0]
    ensures var r := CachedGet(order, entries, path, onMiss);
      && !r.loaded && r.bmp == entries[path]
      && r.order == EvictIfFull(order, entries).0
      && r.entries == EvictIfFull(order, entries).1
  {
  }

  /** A miss loads the bitmap and appends its key at the newest end; every
      other entry the eviction kept stays as it was. */
  lemma CachedGetMiss(order: seq<string>, entries: map<string, Option<Bitmap>>, path: string, onMiss: Option<Bitmap>)
    requires path !in entries
    ensures var r := CachedGet(order, entries, path, onMiss);
      && r.loaded && r.bmp == onMiss
      && r.order == EvictIfFull(order, entries).0 + [path]
      && r.entries == EvictIfFull(order, entries).1[path := onMiss]
  {
  }

  /** A full cache drops its oldest entry before it looks `path` up, so even
      the oldest key is then loaded afresh and becomes the newest. */
  lemma CachedGetFullEvictsOldest(order: seq<string>, entries: map<string, Option<Bitmap>>, path: string, onMiss: Option<Bitmap>)
    requires OrderedKeys(order, entries)
    requires |order| == MaxCachedBitmaps
    ensures var r := CachedGet(order, entries, path, onMiss);
      && (order[0] == path ==> r.loaded && r.order == order[1..] + [path] && r.bmp == onMiss)
      && (order[0] != path ==> order[0] !in r.entries)
  {
    var (order1, entries1) := EvictIfFull(order, entries);
    assert order[0] !in order1;
  }

  /** Requests are keyed by name and location written one after the other,
      so two requests whose name and location run together to the same text
      share a cache entry (name "ab" at location "c" and name "a" at location
      "bc", say): once one is cached, the other is a hit that returns the same
      bitmap, unless the eviction drops that entry first. */
  lemma CacheKeyCollision(order: seq<string>, entries: map<string, Option<Bitmap>>,
                          name1: string, location1: string, name2: string, location2: string, onMiss: Option<Bitmap>)
    requires OrderedKeys(order, entries)
    requires name1 + location1 == name2 + location2
    requires name1 + location1 in entries
    requires |order| < MaxCachedBitmaps || order[0] != name1 + location1
    ensures var r := CachedGet(order, entries, name2 + location2, onMiss);
      !r.loaded && r.bmp == entries[name1 + location1]
  {
  }

  // ---------------------------------------------------------------------
  // The loader
  // ---------------------------------------------------------------------

  /** The bitmap loader. `loadImage` is the image store (a zip archive or the
      image directory) and `resScale` the display's resolution scale rounded
      up. `loads` logs the calls to the bitmap loader. */
  class BitmapLoader {
    const loadImage: (string, string) -> Option<Image>
    const resScale: int
    var cachedBitmaps: map<string, Option<Bitmap>>
    var cacheOrder: seq<string>
    var dontUseCachedBitmaps: bool
    ghost var loads: seq<(string, string)>

    ghost predicate Valid()
      reads this
    {
      OrderedKeys(cacheOrder, cachedBitmaps)
    }

    constructor (loadImage: (string, string) -> Option<Image>, resScale: int)
      ensures Valid()
      ensures this.loadImage == loadImage && this.resScale == resScale
      ensures cachedBitmaps == map[] && cacheOrder == [] && !dontUseCachedBitmaps && loads == []
    {
      this.loadImage := loadImage;
      this.resScale := resScale;
      cachedBitmaps := map[];
      cacheOrder := [];
      dontUseCachedBitmaps := false;
      loads := [];
    }

    /** Tries the scales from `resScale` down to 1 and makes a bitmap of the
        first variant found. */
    method LoadBitmap(name: string, location: string) returns (bmp: Option<Bitmap>)
      ensures bmp == LoadedBitmap(loadImage, resScale, name, location)
    {
      var img: Option<Image> := None;
      var currentResScale := resScale;
      while img.None? && currentResScale > 0
        invariant currentResScale <= resScale
        invariant img.None? ==> FindScale(loadImage, name, location, resScale) == FindScale(loadImage, name, location, currentResScale)
        invariant img.Some? ==> FindScale(loadImage, name, location, resScale) == Some(currentResScale)
                                && img == LoadScaledBitmap(loadImage, name, location, currentResScale).img
        decreases currentResScale, if img.None? then 1 else 0
      {
        var loaded := LoadScaledBitmap(loadImage, name, location, currentResScale);
        img := loaded.img;
        if img.Some? {
          break;
        }
        currentResScale := currentResScale - 1;
      }
      if img.None? {
        return None;
      }
      bmp := Some(Bitmap(img.value, currentResScale));
    }

    /** The bitmap for `name` at `location`, from the cache when caching is on. */
    method GetBitmap(name: string, location: string) returns (bmp: Option<Bitmap>)
      requires Valid()
      modifies this
      ensures Valid() && dontUseCachedBitmaps == old(dontUseCachedBitmaps)
      // with caching off the cache is untouched and the loader's result returned
      ensures old(dontUseCachedBitmaps) ==>
        && bmp == LoadedBitmap(loadImage, resScale, name, location)
        && cachedBitmaps == old(cachedBitmaps) && cacheOrder == old(cacheOrder)
        && loads == old(loads) + [(name, location)]
      // with caching on the cache takes one cached-lookup step on key name + location
      ensures !old(dontUseCachedBitmaps) ==>
        var r := CachedGet(old(cacheOrder), old(cachedBitmaps), name + location, LoadedBitmap(loadImage, resScale, name, location));
        && bmp == r.bmp && cacheOrder == r.order && cachedBitmaps == r.entries
        && loads == old(loads) + (if r.loaded then [(name, location)] else [])
    {
      if dontUseCachedBitmaps {
        bmp := LoadBitmap(name, location);
        loads := loads + [(name, location)];
        return;
      }
      var path := name + location;
      CachedGetKeepsCache(cacheOrder, cachedBitmaps, path, LoadedBitmap(loadImage, resScale, name, location));
      OrderedKeysCount(cacheOrder, cachedBitmaps);
      if |cachedBitmaps| == MaxCachedBitmaps {
        cachedBitmaps := cachedBitmaps - {cacheOrder[0]};
        cacheOrder := cacheOrder[1..];
      }
      if path !in cachedBitmaps {
        bmp := LoadBitmap(name, location);
        loads := loads + [(name, location)];
        cachedBitmaps := cachedBitmaps[path := bmp];
        cacheOrder := cacheOrder + [path];
      } else {
        bmp := cachedBitmaps[path];
      }
    }
  }
}
