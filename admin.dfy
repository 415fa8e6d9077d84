/**
 * Viewer3DNodeImageAdmin and the part of Viewer3DNodeVolume it relies on: one axis set per image, and a
 * cache of renderable volumes keyed by the volume descriptors' cache strings, in insertion order.
 */
module ImageAdmin {
  import opened Outcomes
  import opened AxisState
  import opened AxisSet
  import opened ImageToVtk
  import opened EventBus

  /** Viewer3DNodeVolume.Mapper. */
  datatype Mapper = Smart | Texture3D | RayFixedPoint | Gpu

  /**
   * A TransferFunctionBundle, as a value: the two default bundles, or one edited by the user (the
   * transfer function editor is not part of this model). The copy constructor makes an equal value.
   */
  datatype Bundle = GrayAlpha | Rgba | Edited(id: nat)

  /** Viewer3DNodeVolume: the grid it renders, its own copy of the descriptor, its bundles and its mapper. */
  class RenderVolume {
    const grid: Grid
    const axesVolume: Volume
    /** The cache string of the descriptor the volume was built for. */
    ghost const key: string
    var bundleGray: Bundle
    var bundleRGB: Bundle
    /** m_mapper; None stands for null. */
    var mapper: Option<Mapper>
    /** Whether delete released the native objects. */
    var released: bool

    /** Mapper, release flag and bundles are what they were in the earlier state. */
    twostate predicate Kept()
      reads this
    {
      mapper == old(mapper) && released == old(released) && bundleGray == old(bundleGray) && bundleRGB == old(bundleRGB)
    }

    /** The constructor ends with setMapper(SMART) on a volume that has no mapper yet. */
    constructor (grid: Grid, axesVolume: Volume, ghost key: string, bundleGray: Bundle, bundleRGB: Bundle)
      ensures this.grid == grid && this.axesVolume == axesVolume && this.key == key
      ensures this.bundleGray == bundleGray && this.bundleRGB == bundleRGB
      ensures mapper == Some(Smart) && !released
    {
      this.grid := grid;
      this.axesVolume := axesVolume;
      this.key := key;
      this.bundleGray := bundleGray;
      this.bundleRGB := bundleRGB;
      mapper := Some(Smart);
      released := false;
    }

    /** new Viewer3DNodeVolume(image, axes, gray, rgb): the descriptor is deep-copied first, which throws on a torn one. */
    static method New(grid: Grid, volume: Volume, bundleGray: Bundle, bundleRGB: Bundle) returns (r: Result<RenderVolume>)
      ensures r.Success? <==> volume.Consistent()
      ensures r.Failure? ==> r.error == NullPointer
      ensures r.Success? ==> && fresh(r.value) && r.value.grid == grid && r.value.key == volume.CacheKey()
                             && fresh(r.value.axesVolume) && r.value.axesVolume.CacheKey() == volume.CacheKey()
                             && r.value.bundleGray == bundleGray && r.value.bundleRGB == bundleRGB
                             && r.value.mapper == Some(Smart) && !r.value.released
    {
      var copy :- volume.DeepCopy();
      var v := new RenderVolume(grid, copy, volume.CacheKey(), bundleGray, bundleRGB);
      r := Success(v);
    }

    /**
     * setMapper: a different mapper is stored before the switch on it, so a null one is stored and then
     * throws; the same mapper, null included, changes nothing.
     */
    method SetMapper(m: Option<Mapper>) returns (r: Outcome)
      modifies this
      ensures mapper == m
      ensures r == if old(mapper) != m && m == None then Fail(NullPointer) else Pass
      ensures bundleGray == old(bundleGray) && bundleRGB == old(bundleRGB) && released == old(released)
    {
      if mapper != m {
        mapper := m;
        if m == None {
          return Fail(NullPointer);
        }
      }
      r := Pass;
    }

    /** delete(false): release the native objects, the image data among them. */
    method Release()
      modifies this, grid
      ensures released && grid.deleted
      ensures bundleGray == old(bundleGray) && bundleRGB == old(bundleRGB) && mapper == old(mapper)
    {
      released := true;
      grid.Delete();
    }
  }

  /** The strings of s are pairwise different. */
  predicate DistinctKeys(s: seq<string>) {
    forall i, j :: 0 <= i < j < |s| ==> s[i] != s[j]
  }

  /** The insertion order of a cache: each key once, and every volume stored under its own descriptor's key. */
  ghost predicate Indexed(order: seq<string>, cache: map<string, RenderVolume>) {
    && DistinctKeys(order)
    && (forall i :: 0 <= i < |order| ==> order[i] in cache)
    && (forall k :: k in cache ==> k in order && cache[k].key == k)
  }

  /** LinkedHashMap.put of a new key: it goes last in the order. */
  lemma IndexedPut(order: seq<string>, cache: map<string, RenderVolume>, key: string, vol: RenderVolume)
    requires Indexed(order, cache) && key !in cache && vol.key == key
    ensures Indexed(order + [key], cache[key := vol])
  {
  }

  /** The axes setUpAxes builds for an image: dimension d's label, its first dimension index and that extent. */
  ghost predicate Arranged(axes: seq<Axis>, image: Image)
    requires image.WellFormed()
  {
    && |axes| == |image.labels|
    && forall d :: 0 <= d < |axes| ==>
         && axes[d].axisLabel == image.labels[d]
         && axes[d].index == FirstIndex(image.labels, image.labels[d])
         && axes[d].extent == image.dims[axes[d].index]
  }

  /** Axes laid out by setUpAxes index arrays with one slot per axis. */
  lemma ArrangedInRange(axes: seq<Axis>, image: Image)
    requires image.WellFormed() && Arranged(axes, image)
    ensures forall a :: a in axes ==> 0 <= a.index < |axes|
  {
    forall a | a in axes ensures 0 <= a.index < |axes| {
      var d :| 0 <= d < |axes| && axes[d] == a;
    }
  }

  /**
   * setUpAxes: one new axis per dimension of the image, in dimension order, handed to an axis set that
   * displays the first three.
   */
  method SetUpAxes(image: Image) returns (a: Axes)
    requires image.WellFormed() && |image.labels| >= MinDims
    ensures fresh(a) && a.Valid() && a.IndicesInRange() && DistinctAxes(a.axes)
    ensures Arranged(a.axes, image) && a.noDisplayed == MinDims
    ensures a.displayed.items == a.axes[..MinDims] && a.hidden.items == a.axes[MinDims..]
    ensures forall i :: 0 <= i < |a.axes| ==> fresh(a.axes[i]) && a.axes[i].displayed == [0] && a.axes[i].manipulated == 0
  {
    var list := NewAxes(image);
    ArrangedInRange(list, image);
    a := new Axes(MinDims, list);
  }

  /** The loop of setUpAxes: a new axis per label, whose dimension is the first one carrying that label. */
  method NewAxes(image: Image) returns (list: seq<Axis>)
    requires image.WellFormed()
    ensures Arranged(list, image) && DistinctAxes(list)
    ensures forall i :: 0 <= i < |list| ==> fresh(list[i]) && list[i].displayed == [0] && list[i].manipulated == 0
  {
    var labels := image.labels;
    list := [];
    for d := 0 to |labels|
      invariant |list| == d
      invariant forall i :: 0 <= i < d ==> fresh(list[i]) && list[i].displayed == [0] && list[i].manipulated == 0
      invariant forall i :: 0 <= i < d ==>
                  && list[i].axisLabel == labels[i] && list[i].index == FirstIndex(labels, labels[i])
                  && list[i].extent == image.dims[list[i].index]
      invariant DistinctAxes(list)
    {
      var index := FirstIndex(labels, labels[d]);
      var axis := new Axis(labels[d], image.dims[index], index);
      list := list + [axis];
    }
  }

  /** Viewer3DNodeImageAdmin. */
  class Admin {
    const events: EventService
    const image: Image
    /** m_converter; null once delete was called. */
    var converter: Converter?
    /** m_axes; null once delete was called. */
    var axes: Axes?
    /** m_cache: the volumes by key ... */
    var cache: map<string, RenderVolume>
    /** ... and its keys in insertion order. */
    var order: seq<string>
    var current: RenderVolume?
    var caching: bool
    /** m_mapper; None stands for null. */
    var mapper: Option<Mapper>
    /** The keys the converter was asked to convert, in order. */
    ghost var converted: seq<string>

    /**
     * The cache keeps its keys once each and in order, every volume under the key of its own descriptor;
     * the converter never caches and publishes on the admin's service; the axis set's indices are in
     * range, and after delete there is neither converter, axis set nor cached volume. (The axis set keeps
     * its own invariant, Axes.Valid, which the cube selector relies on as well.)
     */
    ghost predicate Valid()
      reads this, converter
    {
      && Indexed(order, cache)
      && (converter != null ==> converter.Valid() && !converter.caching && converter.events == events)
      && (axes != null ==> axes.IndicesInRange())
      && (converter == null ==> axes == null && cache == map[] && order == [])
    }

    constructor (image: Image, events: EventService, converter: Converter, axes: Axes)
      requires converter.Valid() && !converter.caching && converter.events == events
      requires axes.IndicesInRange()
      ensures this.image == image && this.events == events && this.converter == converter && this.axes == axes
      ensures cache == map[] && order == [] && current == null && caching && mapper == Some(Smart) && converted == []
      ensures Valid()
    {
      this.image := image;
      this.events := events;
      this.converter := converter;
      this.axes := axes;
      cache := map[];
      order := [];
      current := null;
      caching := true;
      mapper := Some(Smart);
      converted := [];
    }

    /**
     * The public constructor: a null event service is rejected first, then the converter (built with
     * caching off) rejects an image with fewer than three dimensions; caching starts on and the mapper
     * at SMART, and the axes are set up from the image.
     */
    static method New(image: Image, events: EventService?) returns (r: Result<Admin>)
      requires image.WellFormed()
      ensures r.Success? <==> events != null && |image.labels| >= MinDims
      ensures r.Failure? ==> r.error == if events == null then IllegalArgument else NotEnoughDims
      ensures r.Success? ==> && fresh(r.value) && r.value.Valid() && r.value.image == image && r.value.events == events
                             && r.value.axes != null && r.value.axes.Valid()
                             && r.value.caching && r.value.mapper == Some(Smart)
                             && r.value.cache == map[] && r.value.order == [] && r.value.current == null
                             && r.value.converter != null && fresh(r.value.converter)
                             && !r.value.converter.caching && r.value.converter.createdImages == map[]
                             && r.value.axes != null && fresh(r.value.axes) && Arranged(r.value.axes.axes, image)
                             && r.value.axes.noDisplayed == MinDims && DistinctAxes(r.value.axes.axes)
    {
      if events == null {
        return Failure(IllegalArgument);
      }
      var converter :- Converter.New(image, false, events);
      var axes := SetUpAxes(image);
      var admin := new Admin(image, events, converter, axes);
      r := Success(admin);
    }

    /** The cache answers for key. */
    ghost predicate Hit(key: string)
      reads this
    {
      caching && key in cache
    }

    /** The bundles a new volume starts with: copies of the current volume's, or the two defaults. */
    ghost function Inherited(): (Bundle, Bundle)
      reads this, current
    {
      if current != null then (current.bundleGray, current.bundleRGB) else (GrayAlpha, Rgba)
    }

    /**
     * The miss path of getVolume up to the new volume: convert the descriptor, then build a volume
     * around the grid with the inherited bundles.
     */
    method Build(volume: Volume) returns (r: Result<RenderVolume>)
      requires Valid() && converter != null
      modifies converter, events
      ensures converter.Valid() && converter.caching == old(converter.caching)
      ensures converter.createdImages == old(converter.createdImages)
      ensures var spec := old(converter.ConversionOf(volume));
              && (r.Success? <==> spec.Success? && volume.Consistent())
              && (spec.Failure? ==> r == Failure(spec.error) && events.published == old(events.published))
              && (spec.Success? && !volume.Consistent() ==> r == Failure(NullPointer))
              && (r.Success? ==> && fresh(r.value) && fresh(r.value.grid) && !r.value.grid.deleted
                                 && spec.value.layout.Within(|converter.image.dims|)
                                 && r.value.grid.Shows(converter.image, spec.value)
                                 && r.value.key == volume.CacheKey() && !r.value.released && r.value.mapper == Some(Smart)
                                 && (r.value.bundleGray, r.value.bundleRGB) == old(Inherited()))
    {
      ghost var spec := converter.ConversionOf(volume);
      var gray, rgb := GrayAlpha, Rgba;
      if current != null {
        gray, rgb := current.bundleGray, current.bundleRGB;
      }
      var grid :- converter.GetVTKImageData(volume);
      r := RenderVolume.New(grid, volume, gray, rgb);
    }

    /** Build as the cache sees it: a fresh volume for the descriptor's key, with the inherited bundles. */
    method Fresh(volume: Volume) returns (r: Result<RenderVolume>)
      requires Valid() && converter != null
      modifies converter, events
      ensures converter.Valid() && converter.caching == old(converter.caching)
      ensures converter.createdImages == old(converter.createdImages)
      ensures var spec := old(converter.ConversionOf(volume));
              && (r.Success? <==> spec.Success? && old(volume.Consistent()))
              && (r.Failure? ==> r.error == if spec.Failure? then spec.error else NullPointer)
      ensures r.Success? ==> && fresh(r.value) && r.value.key == volume.CacheKey() && !r.value.released
                             && r.value.mapper == Some(Smart) && (r.value.bundleGray, r.value.bundleRGB) == old(Inherited())
    {
      r := Build(volume);
    }

    /** LinkedHashMap.put of a key not yet cached: the volume goes in under it, last in the order. */
    method Store(key: string, vol: RenderVolume)
      requires Valid() && converter != null && key !in cache && vol.key == key
      modifies this
      ensures Valid()
      ensures cache == old(cache)[key := vol] && order == old(order) + [key]
      ensures converter == old(converter) && axes == old(axes) && current == old(current)
      ensures caching == old(caching) && mapper == old(mapper) && converted == old(converted)
    {
      IndexedPut(order, cache, key, vol);
      cache := cache[key := vol];
      order := order + [key];
    }

    /**
     * The miss path of getVolume: the converter is asked for the key, and the new volume is stored
     * last under the key iff caching is on; the current volume is not touched yet.
     */
    method Miss(volume: Volume, key: string) returns (r: Result<RenderVolume>)
      requires Valid() && converter != null && key == volume.CacheKey() && !Hit(key)
      modifies this, events, converter
      ensures Valid()
      ensures converter == old(converter) && axes == old(axes) && caching == old(caching) && mapper == old(mapper)
      ensures current == old(current) && converted == old(converted) + [volume.CacheKey()]
      ensures var spec := old(converter.ConversionOf(volume));
              && (r.Success? <==> spec.Success? && old(volume.Consistent()))
              && (r.Failure? ==> r.error == if spec.Failure? then spec.error else NullPointer)
      ensures r.Failure? ==> cache == old(cache) && order == old(order)
      ensures r.Success? ==> && fresh(r.value) && r.value.key == volume.CacheKey() && r.value.mapper == Some(Smart)
                             && (r.value.bundleGray, r.value.bundleRGB) == old(Inherited())
                             && cache == (if caching then old(cache)[volume.CacheKey() := r.value] else old(cache))
                             && order == (if caching then old(order) + [volume.CacheKey()] else old(order))
      ensures forall v :: v in cache.Values ==> v in old(cache.Values) || fresh(v)
    {
      var built := Fresh(volume);
      r := Record(key, built);
    }

    /** The bookkeeping of a miss: the conversion is recorded, and a built volume is stored iff caching is on. */
    method Record(key: string, built: Result<RenderVolume>) returns (r: Result<RenderVolume>)
      requires Valid() && converter != null && !Hit(key) && (built.Success? ==> built.value.key == key)
      modifies this
      ensures Valid() && r == built
      ensures converter == old(converter) && axes == old(axes) && caching == old(caching) && mapper == old(mapper)
      ensures current == old(current) && converted == old(converted) + [key]
      ensures cache == (if built.Success? && caching then old(cache)[key := built.value] else old(cache))
      ensures order == (if built.Success? && caching then old(order) + [key] else old(order))
      ensures forall v :: v in cache.Values ==> v in old(cache.Values) || (built.Success? && v == built.value)
    {
      converted := converted + [key];
      r := built;
      if built.Success? && caching {
        Store(key, built.value);
      }
    }

    /**
     * getVolume: a null descriptor, or an admin after delete, throws before anything changes. On a hit
     * the cached volume is taken and the converter is not asked; on a miss the converter is asked once
     * and the new volume is stored under the key iff caching is on. Either way the volume becomes the
     * current one and gets the admin's mapper, which throws when that is null and the volume had one.
     */
    method GetVolume(volume: Volume?) returns (r: Result<RenderVolume>)
      requires Valid()
      modifies this, events, converter, cache.Values
      ensures Valid()
      ensures converter == old(converter) && axes == old(axes) && caching == old(caching) && mapper == old(mapper)
      ensures volume == null || old(converter) == null ==>
                r == Failure(NullPointer) && unchanged(this) && events.published == old(events.published)
      ensures volume != null && old(converter) != null && old(Hit(volume.CacheKey())) ==>
                && current == old(cache[volume.CacheKey()])
                && cache == old(cache) && order == old(order) && converted == old(converted)
                && events.published == old(events.published)
                && r == (if mapper == None && old(cache[volume.CacheKey()].mapper) != None then Failure(NullPointer) else Success(current))
      ensures volume != null && old(converter) != null && !old(Hit(volume.CacheKey())) ==>
                && converted == old(converted) + [volume.CacheKey()]
                && var spec := old(converter.ConversionOf(volume));
                   var built := spec.Success? && old(volume.Consistent());
                && (!built ==> && current == old(current) && cache == old(cache) && order == old(order)
                               && r == Failure(if spec.Failure? then spec.error else NullPointer))
                && (built ==> && fresh(current) && current.key == volume.CacheKey()
                              && (current.bundleGray, current.bundleRGB) == old(Inherited())
                              && cache == (if caching then old(cache)[volume.CacheKey() := current] else old(cache))
                              && order == (if caching then old(order) + [volume.CacheKey()] else old(order))
                              && r == (if mapper == None then Failure(NullPointer) else Success(current)))
      ensures r.Success? ==> r.value == current && r.value.key == volume.CacheKey() && r.value.mapper == mapper
      ensures forall v :: v in cache.Values ==> v in old(cache.Values) || fresh(v)
      ensures forall v: RenderVolume :: old(allocated(v)) && v != current ==> v.Kept()
    {
      if volume == null || converter == null {
        return Failure(NullPointer);
      }
      var key := volume.GetCacheString();
      if caching && key in cache {
        r := Revisit(volume, key);
      } else {
        r := Renew(volume, key);
      }
    }

    /** getVolume on a hit: the cached volume becomes the current one, nothing is converted. */
    method Revisit(volume: Volume, key: string) returns (r: Result<RenderVolume>)
      requires Valid() && converter != null && key == volume.CacheKey() && Hit(key)
      modifies this, cache[key]
      ensures Valid()
      ensures converter == old(converter) && axes == old(axes) && caching == old(caching) && mapper == old(mapper)
      ensures && current == old(cache[volume.CacheKey()])
              && cache == old(cache) && order == old(order) && converted == old(converted)
              && events.published == old(events.published)
              && r == (if mapper == None && old(cache[volume.CacheKey()].mapper) != None then Failure(NullPointer) else Success(current))
      ensures r.Success? ==> r.value == current && r.value.key == volume.CacheKey() && r.value.mapper == mapper
      ensures forall v :: v in cache.Values ==> v in old(cache.Values) || fresh(v)
      ensures forall v: RenderVolume :: old(allocated(v)) && v != current ==> v.Kept()
    {
      r := Settle(cache[key]);
    }

    /** getVolume on a miss: the converted volume, when one is built, becomes the current one. */
    method Renew(volume: Volume, key: string) returns (r: Result<RenderVolume>)
      requires Valid() && converter != null && key == volume.CacheKey() && !Hit(key)
      modifies this, events, converter
      ensures Valid()
      ensures converter == old(converter) && axes == old(axes) && caching == old(caching) && mapper == old(mapper)
      ensures && converted == old(converted) + [key]
              && var spec := old(converter.ConversionOf(volume));
                 var built := spec.Success? && old(volume.Consistent());
              && (!built ==> && current == old(current) && cache == old(cache) && order == old(order)
                             && r == Failure(if spec.Failure? then spec.error else NullPointer))
              && (built ==> && fresh(current) && current.key == key
                            && (current.bundleGray, current.bundleRGB) == old(Inherited())
                            && cache == (if caching then old(cache)[key := current] else old(cache))
                            && order == (if caching then old(order) + [key] else old(order))
                            && r == (if mapper == None then Failure(NullPointer) else Success(current)))
      ensures r.Success? ==> r.value == current && r.value.key == key && r.value.mapper == mapper
      ensures forall v :: v in cache.Values ==> v in old(cache.Values) || fresh(v)
      ensures forall v: RenderVolume :: old(allocated(v)) && v != current ==> v.Kept()
    {
      var vol :- Miss(volume, key);
      r := Settle(vol);
    }

    /** The end of getVolume: the volume becomes the current one and gets the admin's mapper. */
    method Settle(vol: RenderVolume) returns (r: Result<RenderVolume>)
      requires Valid()
      modifies this, vol
      ensures Valid()
      ensures current == vol && vol.mapper == mapper
      ensures r == if mapper == None && old(vol.mapper) != None then Failure(NullPointer) else Success(vol)
      ensures vol.bundleGray == old(vol.bundleGray) && vol.bundleRGB == old(vol.bundleRGB) && vol.released == old(vol.released)
      ensures converter == old(converter) && axes == old(axes) && caching == old(caching) && mapper == old(mapper)
      ensures cache == old(cache) && order == old(order) && converted == old(converted)
    {
      current := vol;
      var mapped := vol.SetMapper(mapper);
      if mapped.Fail? {
        return Failure(mapped.error);
      }
      r := Success(vol);
    }

    /** getVolume as getVolumes relies on it: the requested volume becomes the current one. */
    method Request(volume: Volume, ghost ds: seq<Axis>, ghost hs: seq<Axis>) returns (r: Result<RenderVolume>)
      requires Valid() && volume.displayed.items == ds && volume.hidden.items == hs
      modifies this, events, converter, cache.Values
      ensures Valid()
      ensures converter == old(converter) && axes == old(axes) && caching == old(caching) && mapper == old(mapper)
      ensures forall v :: v in cache.Values ==> v in old(cache.Values) || fresh(v)
      ensures r.Success? ==> r.value == current && r.value.key == LabelText(ds) + HiddenText(hs, volume.depthMap)
    {
      r := GetVolume(volume);
    }

    /**
     * The loop of getVolumes: each descriptor in turn is requested and its volume appended; the first
     * request that throws ends the walk.
     */
    method RequestAll(vols: seq<Volume>, ghost ds: seq<Axis>, ghost hs: seq<Axis>) returns (r: Result<seq<RenderVolume>>)
      requires Valid()
      requires forall k :: 0 <= k < |vols| ==> vols[k].displayed.items == ds && vols[k].hidden.items == hs
      modifies this, events, converter, cache.Values
      ensures Valid()
      ensures converter == old(converter) && axes == old(axes) && caching == old(caching) && mapper == old(mapper)
      ensures r.Success? ==> |r.value| == |vols|
      ensures r.Success? ==> forall k :: 0 <= k < |vols| ==> r.value[k].key == LabelText(ds) + HiddenText(hs, vols[k].depthMap)
      ensures r.Success? && |vols| > 0 ==> current == r.value[|vols| - 1]
    {
      ghost var keys := seq(|vols|, k requires 0 <= k < |vols| => LabelText(ds) + HiddenText(hs, vols[k].depthMap));
      var out: seq<RenderVolume> := [];
      for i := 0 to |vols|
        invariant Valid() && converter == old(converter) && axes == old(axes)
        invariant caching == old(caching) && mapper == old(mapper)
        invariant forall v :: v in cache.Values ==> v in old(cache.Values) || fresh(v)
        invariant |out| == i
        invariant forall k :: 0 <= k < i ==> out[k].key == keys[k]
        invariant i > 0 ==> current == out[i - 1]
      {
        var vol :- Request(vols[i], ds, hs);
        out := out + [vol];
      }
      r := Success(out);
    }

    /**
     * getVolumes: the volume of every descriptor the axis set enumerates, in its order, each under the
     * key of its combination of hidden depths. After delete there is no axis set and it throws at once.
     */
    method GetVolumes() returns (r: Result<seq<RenderVolume>>, ghost vols: seq<Volume>)
      requires Valid() && (axes != null ==> axes.Valid())
      modifies this, events, converter, cache.Values
      ensures Valid()
      ensures converter == old(converter) && axes == old(axes) && caching == old(caching) && mapper == old(mapper)
      ensures old(axes) == null ==> r == Failure(NullPointer) && unchanged(this)
      ensures axes != null ==> forall k :: 0 <= k < |vols| ==> vols[k].displayed == axes.displayed && vols[k].hidden == axes.hidden
      ensures old(axes) != null ==>
                && old(axes.ListIndicesInRange()) && |vols| == old(|Combos(SelectionsOf(axes.hidden.items))|)
                && forall k :: 0 <= k < |vols| ==>
                     vols[k].depthMap == old(axes.EnumeratedDepthMap(Combos(SelectionsOf(axes.hidden.items))[k]))
      ensures r.Success? ==> && |r.value| == |vols|
                             && (forall k :: 0 <= k < |vols| ==>
                                   r.value[k].key == LabelText(axes.displayed.items) + HiddenText(axes.hidden.items, vols[k].depthMap))
                             && (|vols| > 0 ==> current == r.value[|vols| - 1])
    {
      if axes == null {
        return Failure(NullPointer), [];
      }
      var vs := axes.GetDisplayedVolumes();
      vols := vs;
      r := RequestAll(vs, axes.displayed.items, axes.hidden.items);
    }

    /** setMapper: the mapper the next requested volume gets; null is accepted here. */
    method SetMapper(m: Option<Mapper>)
      modifies this
      ensures mapper == m
      ensures converter == old(converter) && axes == old(axes) && cache == old(cache) && order == old(order)
      ensures current == old(current) && caching == old(caching) && converted == old(converted)
    {
      mapper := m;
    }

    /** setCaching: switching caching off keeps the cached volumes but neither looks them up nor adds any. */
    method SetCaching(c: bool)
      modifies this
      ensures caching == c
      ensures converter == old(converter) && axes == old(axes) && cache == old(cache) && order == old(order)
      ensures current == old(current) && mapper == old(mapper) && converted == old(converted)
    {
      caching := c;
    }

    /** The loop of delete: every cached volume, in insertion order, releases its native objects. */
    method ReleaseAll()
      requires Valid()
      modifies cache.Values, set v | v in cache.Values :: v.grid
      ensures forall v :: v in cache.Values ==> v.released && v.grid.deleted
    {
      for i := 0 to |order|
        invariant forall k :: 0 <= k < i ==> cache[order[k]].released && cache[order[k]].grid.deleted
      {
        cache[order[i]].Release();
      }
      forall v | v in cache.Values ensures v.released && v.grid.deleted {
        var key :| key in cache && cache[key] == v;
        var k :| 0 <= k < |order| && order[k] == key;
      }
    }

    /**
     * delete: every cached volume releases its native objects, its grid among them; then the admin
     * drops the cache, the converter, the current volume, the mapper and the axis set. A current
     * volume that was never cached is not released.
     */
    method Delete()
      requires Valid()
      modifies this, cache.Values, set v | v in cache.Values :: v.grid
      ensures Valid()
      ensures forall v :: v in old(cache.Values) ==> v.released && v.grid.deleted
      ensures cache == map[] && order == [] && converter == null && current == null && axes == null && mapper == None
      ensures caching == old(caching) && converted == old(converted)
    {
      ReleaseAll();
      cache, order := map[], [];
      converter, current, mapper, axes := null, null, None, null;
    }

    /**
     * A descriptor asked for twice while caching: a first request that succeeds stores the volume, so the
     * second one is a hit that returns the same volume and does not convert again.
     */
    method RequestTwice(volume: Volume) returns (first: Result<RenderVolume>, second: Result<RenderVolume>)
      requires Valid() && caching && converter != null
      modifies this, events, converter, cache.Values
      ensures first.Success? ==> second == first
      ensures first.Success? ==> converted == old(converted) || converted == old(converted) + [volume.CacheKey()]
    {
      first := GetVolume(volume);
      second := GetVolume(volume);
    }
  }
}
