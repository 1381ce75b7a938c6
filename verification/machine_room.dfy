/**
 * The machine room's own state and the three pieces of sequential logic
 * over it: the texture memo (`crtTexture`), material substitution and
 * cabinet registration when a glTF model has loaded (`changeMat` and the
 * `loadGLTF` completion callback), and hover selection (`selectCabinet`).
 */
module Room {
  import opened Scene
  import opened Strings
  import opened Picking

  /** The texture a cabinet shows while the pointer is over it. */
  const HoverKey: string := "cabinet-hover.jpg"
  /** The texture a cabinet gets back when the pointer leaves it. */
  const PlainKey: string := "cabinet.jpg"
  /** A loaded child is a cabinet when its material's name contains this. */
  const CabinetMarker: string := "cabinet"

  /** `maps.get(key)`: `undefined` for a name never cached. */
  function Get(maps: map<string, Texture>, key: string): (r: Option<Texture>)
    ensures r.Some? <==> key in maps
    ensures r.Some? ==> r.value == maps[key]
  {
    if key in maps then Some(maps[key]) else None
  }

  /**
   * The children registered as cabinets, in child order: those whose
   * material (as it was before substitution) is named with the marker.
   * `mats[i]` is the material of `children[i]`.
   */
  function Selectable(children: seq<Mesh>, mats: seq<Material>): (r: seq<Mesh>)
    requires |children| == |mats|
    ensures |r| <= |children|
    decreases |children|
  {
    if children == [] then []
    else
      var n := |children| - 1;
      var rest := Selectable(children[..n], mats[..n]);
      if Contains(mats[n].name, CabinetMarker) then rest + [children[n]] else rest
  }

  /** A child is registered exactly when its material is named as a cabinet. */
  lemma {:induction false} SelectableMembers(children: seq<Mesh>, mats: seq<Material>)
    requires |children| == |mats|
    ensures forall i :: 0 <= i < |children| && Contains(mats[i].name, CabinetMarker) ==>
              children[i] in Selectable(children, mats)
    ensures forall m :: m in Selectable(children, mats) ==>
              exists i :: 0 <= i < |children| && children[i] == m && Contains(mats[i].name, CabinetMarker)
    decreases |children|
  {
    if children != [] {
      var n := |children| - 1;
      SelectableMembers(children[..n], mats[..n]);
      assert forall i :: 0 <= i < n ==> children[..n][i] == children[i] && mats[..n][i] == mats[i];
    }
  }

  /** Registration distributes over a split of the children, so it keeps child order. */
  lemma {:induction false} SelectableAppend(a: seq<Mesh>, ma: seq<Material>, b: seq<Mesh>, mb: seq<Material>)
    requires |a| == |ma| && |b| == |mb|
    ensures Selectable(a + b, ma + mb) == Selectable(a, ma) + Selectable(b, mb)
    decreases |b|
  {
    if b == [] {
      assert a + b == a && ma + mb == ma;
    } else {
      var n := |b| - 1;
      assert (a + b)[..|a| + n] == a + b[..n] && (ma + mb)[..|a| + n] == ma + mb[..n];
      assert (a + b)[|a| + n] == b[n] && (ma + mb)[|a| + n] == mb[n];
      SelectableAppend(a, ma, b[..n], mb[..n]);
    }
  }

  /**
   * `m` is the unlit material `changeMat` gives a mesh whose material was
   * `source`: the cached texture named after the original map when there is
   * one, otherwise the original colour.
   */
  predicate UnlitOf(m: Material, source: Material, maps: map<string, Texture>)
  {
    match source.texture
    case Some(t) => t.name in maps && m == Material(Basic, "", White, Some(maps[t.name]))
    case None => m == Material(Basic, "", source.color, None)
  }

  /** `grown` keeps every entry of `maps`. */
  ghost predicate Extends(grown: map<string, Texture>, maps: map<string, Texture>)
  {
    forall k :: k in maps ==> k in grown && grown[k] == maps[k]
  }

  lemma ExtendsTransitive(a: map<string, Texture>, b: map<string, Texture>, c: map<string, Texture>)
    requires Extends(a, b) && Extends(b, c)
    ensures Extends(a, c)
  {
  }

  lemma UnlitOfExtends(m: Material, source: Material, maps: map<string, Texture>, grown: map<string, Texture>)
    requires UnlitOf(m, source, maps) && Extends(grown, maps)
    ensures UnlitOf(m, source, grown)
  {
  }

  /**
   * The first `i` of `children` (with original materials `mats`) have been
   * processed: `cur` are the children's materials now, `cabinets` and `maps`
   * the room's, `cabinets0` and `maps0` the room's before the first child.
   */
  ghost predicate LoadedPrefix(children: seq<Mesh>, mats: seq<Material>, cur: seq<Material>, i: nat,
                               cabinets: seq<Mesh>, cabinets0: seq<Mesh>,
                               maps: map<string, Texture>, maps0: map<string, Texture>)
  {
    && |children| == |mats| == |cur|
    && i <= |children|
    && cabinets == cabinets0 + Selectable(children[..i], mats[..i])
    && Extends(maps, maps0)
    && maps.Keys == maps0.Keys + TextureNames(mats[..i])
    && (forall j :: i <= j < |cur| ==> cur[j] == mats[j])
    && (forall j :: 0 <= j < i ==> UnlitOf(cur[j], mats[j], maps))
  }

  /** Processing child `i` extends the processed prefix by one. */
  lemma LoadStep(children: seq<Mesh>, mats: seq<Material>, cur: seq<Material>, i: nat,
                 cabinets: seq<Mesh>, cabinets': seq<Mesh>, cabinets0: seq<Mesh>,
                 maps: map<string, Texture>, maps': map<string, Texture>, maps0: map<string, Texture>,
                 m: Material)
    requires LoadedPrefix(children, mats, cur, i, cabinets, cabinets0, maps, maps0)
    requires i < |children|
    requires cabinets' == cabinets + Selectable([children[i]], [mats[i]])
    requires Extends(maps', maps)
    requires maps'.Keys == maps.Keys + TextureNames([mats[i]])
    requires UnlitOf(m, mats[i], maps')
    ensures LoadedPrefix(children, mats, cur[i := m], i + 1, cabinets', cabinets0, maps', maps0)
  {
    assert children[..i + 1][..i] == children[..i] && mats[..i + 1][..i] == mats[..i];
    ExtendsTransitive(maps', maps, maps0);
    forall j | 0 <= j < i
      ensures UnlitOf(cur[i := m][j], mats[j], maps')
    {
      UnlitOfExtends(cur[j], mats[j], maps, maps');
    }
  }

  /** The names of the original textures among `mats`. */
  ghost function TextureNames(mats: seq<Material>): (r: set<string>)
  {
    if mats == [] then {}
    else
      var n := |mats| - 1;
      TextureNames(mats[..n]) + (if mats[n].texture.Some? then {mats[n].texture.value.name} else {})
  }

  /** No mesh occurs twice (a three.js object has one place among its parent's children). */
  ghost predicate Distinct(meshes: seq<Mesh>)
  {
    forall i, j :: 0 <= i < |meshes| && 0 <= j < |meshes| && i != j ==> meshes[i] != meshes[j]
  }

  /**
   * `hit` can be the nearest result of a ray cast against `cabinets`
   * (`intersectObjects(cabinets)`, which descends into their children):
   * none, or a registered cabinet or a mesh below one.
   */
  ghost predicate Hittable(hit: Option<Mesh>, cabinets: seq<Mesh>)
  {
    hit.Some? ==> exists c :: c in cabinets && (c == hit.value || c in hit.value.ancestors)
  }

  /** A registered cabinet is itself a possible hit. */
  lemma RegisteredHittable(m: Mesh, cabinets: seq<Mesh>)
    requires m in cabinets
    ensures Hittable(Some(m), cabinets)
  {
  }

  /** Footprint of an optional mesh reference. */
  function Footprint(o: Option<Mesh>): (r: set<Mesh>)
  {
    if o.Some? then {o.value} else {}
  }

  class MachineRoom {
    /** Directory prepended to every model and texture file name. */
    const modelPath: string
    /** Texture cache, by image file name. */
    var maps: map<string, Texture>
    /** The meshes registered for hover selection. */
    var cabinets: seq<Mesh>
    /** The cabinet under the pointer, if any. */
    var curCabinet: Option<Mesh>

    /**
     * Every cached texture was loaded from `modelPath` + its name and
     * configured (no vertical flip, repeat on both axes), and each name has
     * its own handle.
     */
    ghost predicate CacheValid()
      reads this, maps.Values
    {
      && (forall k :: k in maps ==>
            && maps[k].source == modelPath + k
            && !maps[k].flipY
            && maps[k].wrapS == RepeatWrapping
            && maps[k].wrapT == RepeatWrapping)
      && (forall k1, k2 :: k1 in maps && k2 in maps && k1 != k2 ==> maps[k1] != maps[k2])
    }

    /** The room invariant: a valid cache that holds the hover texture. */
    ghost predicate Valid()
      reads this, maps.Values
    {
      CacheValid() && HoverKey in maps
    }

    /** Among `meshes`, only the current cabinet shows the hover texture. */
    ghost predicate OnlyCurrentHighlighted(meshes: set<Mesh>)
      reads this, meshes
    {
      HoverKey in maps &&
      forall m :: m in meshes && m.material.texture == Some(maps[HoverKey]) ==> curCabinet == Some(m)
    }

    /** `new MachineRoom(canvas, modelPath)`: the rendering set-up is left out; the hover texture is cached. */
    constructor(modelPath: string := "./models/")
      ensures Valid()
      ensures this.modelPath == modelPath
      ensures maps.Keys == {HoverKey} && fresh(maps[HoverKey])
      ensures cabinets == [] && curCabinet == None
    {
      this.modelPath := modelPath;
      maps := map[];
      cabinets := [];
      curCabinet := None;
      new;
      var _ := CrtTexture(HoverKey);
    }

    /** `crtTexture(imgName)`: the cached texture for `imgName`, loading and caching it on first use. */
    method CrtTexture(imgName: string) returns (t: Texture)
      requires CacheValid()
      modifies this
      ensures CacheValid()
      ensures imgName in maps && t == maps[imgName]
      ensures maps.Keys == old(maps).Keys + {imgName}
      ensures forall k :: k in old(maps) ==> maps[k] == old(maps)[k]
      ensures imgName in old(maps) ==> maps == old(maps) && !fresh(t)
      ensures imgName !in old(maps) ==> fresh(t) && t.source == modelPath + imgName
      ensures cabinets == old(cabinets) && curCabinet == old(curCabinet)
    {
      if imgName in maps {
        t := maps[imgName];
      } else {
        t := new Texture.Load(modelPath + imgName);
        t.flipY := false;
        t.wrapS := RepeatWrapping;
        t.wrapT := RepeatWrapping;
        maps := maps[imgName := t];
      }
    }

    /** `changeMat(obj, map, color)`: replace the material of `obj` by an unlit one. */
    method ChangeMat(obj: Mesh, texture: Option<Texture>, color: Color)
      requires CacheValid()
      modifies this, obj
      ensures CacheValid()
      ensures texture.Some? ==> maps.Keys == old(maps).Keys + {texture.value.name}
      ensures texture.None? ==> maps == old(maps)
      ensures forall k :: k in old(maps) ==> maps[k] == old(maps)[k]
      ensures texture.Some? ==> obj.material == Material(Basic, "", White, Some(maps[texture.value.name]))
      ensures texture.None? ==> obj.material == Material(Basic, "", color, None)
      ensures cabinets == old(cabinets) && curCabinet == old(curCabinet)
    {
      match texture
      case Some(tex) =>
        var t := CrtTexture(tex.name);
        obj.material := Material(Basic, "", White, Some(t));
      case None =>
        obj.material := Material(Basic, "", color, None);
    }

    /**
     * The `loadGLTF` completion callback on the top-level `children` of the
     * loaded scene: each gets its unlit material, and those whose material
     * was named as a cabinet are appended to `cabinets`.
     */
    method LoadChildren(children: seq<Mesh>)
      requires Valid()
      requires Distinct(children)
      modifies this, children
      ensures Valid()
      ensures cabinets == old(cabinets) + Selectable(children, old(MaterialsOf(children)))
      ensures curCabinet == old(curCabinet)
      ensures Extends(maps, old(maps))
      ensures maps.Keys == old(maps).Keys + TextureNames(old(MaterialsOf(children)))
      ensures forall i :: 0 <= i < |children| ==> UnlitOf(children[i].material, old(children[i].material), maps)
    {
      ghost var mats, cabinets0, maps0 := MaterialsOf(children), cabinets, maps;
      ghost var cur := mats;
      var i := 0;
      while i < |children|
        invariant 0 <= i <= |children|
        invariant Valid() && curCabinet == old(curCabinet)
        invariant |cur| == |children| && forall j :: 0 <= j < |children| ==> children[j].material == cur[j]
        invariant LoadedPrefix(children, mats, cur, i, cabinets, cabinets0, maps, maps0)
      {
        cur := RegisterNext(children, i, mats, cur, cabinets0, maps0);
        i := i + 1;
      }
      assert children[..i] == children && mats[..i] == mats;
    }

    /** One turn of the loop of `LoadChildren`: registers `children[i]` and extends the processed prefix. */
    method RegisterNext(children: seq<Mesh>, i: nat, ghost mats: seq<Material>, ghost cur: seq<Material>,
                        ghost cabinets0: seq<Mesh>, ghost maps0: map<string, Texture>)
      returns (ghost cur': seq<Material>)
      requires Valid() && Distinct(children) && i < |children|
      requires |cur| == |children| && forall j :: 0 <= j < |children| ==> children[j].material == cur[j]
      requires LoadedPrefix(children, mats, cur, i, cabinets, cabinets0, maps, maps0)
      modifies this, children[i]
      ensures Valid() && curCabinet == old(curCabinet)
      ensures |cur'| == |children| && forall j :: 0 <= j < |children| ==> children[j].material == cur'[j]
      ensures LoadedPrefix(children, mats, cur', i + 1, cabinets, cabinets0, maps, maps0)
    {
      var obj := children[i];
      ghost var mapsNow, cabinetsNow := maps, cabinets;
      RegisterChild(obj);
      LoadStep(children, mats, cur, i, cabinetsNow, cabinets, cabinets0, mapsNow, maps, maps0, obj.material);
      cur' := cur[i := obj.material];
      forall j | 0 <= j < |children| && j != i
        ensures children[j].material == cur'[j]
      {
        assert children[j] != children[i];
      }
    }

    /** The body of the per-child loop of the `loadGLTF` callback, for one child `obj`. */
    method RegisterChild(obj: Mesh)
      requires Valid()
      modifies this, obj
      ensures Valid()
      ensures cabinets == old(cabinets) + Selectable([obj], [old(obj.material)])
      ensures curCabinet == old(curCabinet)
      ensures Extends(maps, old(maps))
      ensures maps.Keys == old(maps).Keys + TextureNames([old(obj.material)])
      ensures UnlitOf(obj.material, old(obj.material), maps)
    {
      var m := obj.material;
      ChangeMat(obj, m.texture, m.color);
      if Contains(m.name, CabinetMarker) {
        cabinets := cabinets + [obj];
      }
      assert [m][..0] == [];
    }

    /**
     * `selectCabinet(x, y)`, with the nearest hit of the pointer ray as
     * `hit` (a registered cabinet or one of its descendants). Returns the
     * callbacks fired, in order.
     */
    method SelectCabinet(x: real, y: real, hit: Option<Mesh>, ghost watched: set<Mesh>) returns (events: seq<Event>)
      requires Valid() && Hittable(hit, cabinets)
      modifies this, Footprint(curCabinet), Footprint(hit)
      ensures Valid()
      ensures maps == old(maps) && cabinets == old(cabinets)
      ensures curCabinet == hit
      ensures events == Trace(old(curCabinet), hit, x, y)
      ensures var prev := old(curCabinet);
        prev.Some? && prev != hit ==> prev.value.material == SetMap(old(prev.value.material), Get(maps, PlainKey))
      ensures hit.Some? && hit != old(curCabinet) ==>
        hit.value.material == SetMap(old(hit.value.material), Get(maps, HoverKey))
      ensures hit.Some? && hit == old(curCabinet) ==> hit.value.material == old(hit.value.material)
      ensures old(OnlyCurrentHighlighted(watched)) && PlainKey in maps ==> OnlyCurrentHighlighted(watched)
    {
      var prev := curCabinet;
      if prev.Some? && prev != hit {
        var material := prev.value.material;
        prev.value.material := SetMap(material, Get(maps, PlainKey));
      }
      match hit
      case Some(obj) =>
        events := [Move(x, y)];
        if hit != prev {
          curCabinet := hit;
          obj.material := SetMap(obj.material, Get(maps, HoverKey));
          events := events + [Over(obj)];
        }
      case None =>
        events := [];
        if prev.Some? {
          curCabinet := None;
          events := events + [Out];
        }
    }
  
    /**
     * `selectCabinet` with the reset taking the plain texture from
     * `crtTexture('cabinet.jpg')`, which loads it when no model has brought
     * it in, instead of `maps.get('cabinet.jpg')`: leaving a cabinet then
     * always takes its highlight away.
     */
    method SelectCabinetRestoring(x: real, y: real, hit: Option<Mesh>, ghost watched: set<Mesh>) returns (events: seq<Event>)
      requires Valid() && Hittable(hit, cabinets)
      modifies this, Footprint(curCabinet), Footprint(hit)
      ensures Valid()
      ensures Extends(maps, old(maps)) && maps.Keys <= old(maps).Keys + {PlainKey}
      ensures cabinets == old(cabinets)
      ensures curCabinet == hit
      ensures events == Trace(old(curCabinet), hit, x, y)
      ensures var prev := old(curCabinet);
        prev.Some? && prev != hit ==>
          PlainKey in maps && prev.value.material == old(prev.value.material).(texture := Some(maps[PlainKey]))
      ensures hit.Some? && hit != old(curCabinet) ==>
        hit.value.material == old(hit.value.material).(texture := Some(maps[HoverKey]))
      ensures hit.Some? && hit == old(curCabinet) ==> hit.value.material == old(hit.value.material)
      ensures old(OnlyCurrentHighlighted(watched)) ==> OnlyCurrentHighlighted(watched)
    {
      var prev := curCabinet;
      if prev.Some? && prev != hit {
        RestorePlain(prev.value, watched);
      }
      match hit
      case Some(obj) =>
        events := [Move(x, y)];
        if hit != prev {
          curCabinet := hit;
          obj.material := SetMap(obj.material, Get(maps, HoverKey));
          events := events + [Over(obj)];
        }
      case None =>
        events := [];
        if prev.Some? {
          curCabinet := None;
          events := events + [Out];
        }
    }
  
    /** The corrected reset of `SelectCabinetRestoring`: `obj` gets the plain texture, loaded if need be. */
    method RestorePlain(obj: Mesh, ghost watched: set<Mesh>)
      requires Valid()
      modifies this, obj
      ensures Valid()
      ensures Extends(maps, old(maps)) && maps.Keys == old(maps).Keys + {PlainKey}
      ensures cabinets == old(cabinets) && curCabinet == old(curCabinet)
      ensures obj.material == old(obj.material).(texture := Some(maps[PlainKey]))
      ensures obj.material.texture != Some(maps[HoverKey])
      ensures old(OnlyCurrentHighlighted(watched)) ==> OnlyCurrentHighlighted(watched)
    {
      var plain := CrtTexture(PlainKey);
      var material := obj.material;
      obj.material := SetMap(material, Some(plain));
    }
  }
}
