/**
 * The room driven the way a page drives it: a model is loaded, then the
 * pointer moves over the canvas and every move is a `selectCabinet` call.
 */
module Scenarios {
  import opened Scene
  import opened Strings
  import opened Picking
  import opened Room

  /**
   * A sequence of pointer moves, one `selectCabinet` call per pick: the
   * callbacks are those of the picks one after another, the selection is
   * the last hit, and no cabinet but the current one keeps the hover
   * texture when the plain texture is cached.
   */
  method Hover(room: MachineRoom, picks: seq<Pick>, ghost watched: set<Mesh>) returns (events: seq<Event>)
    requires room.Valid()
    requires forall i :: 0 <= i < |picks| ==> Hittable(picks[i].hit, room.cabinets)
    modifies room, Footprint(room.curCabinet), Hits(picks)
    ensures room.Valid()
    ensures room.maps == old(room.maps) && room.cabinets == old(room.cabinets)
    ensures room.curCabinet == Selection(old(room.curCabinet), picks)
    ensures events == Callbacks(old(room.curCabinet), picks)
    ensures old(room.OnlyCurrentHighlighted(watched)) && PlainKey in room.maps ==> room.OnlyCurrentHighlighted(watched)
  {
    ghost var cur0 := room.curCabinet;
    events := [];
    var i := 0;
    while i < |picks|
      invariant 0 <= i <= |picks|
      invariant room.Valid()
      invariant room.maps == old(room.maps) && room.cabinets == old(room.cabinets)
      invariant room.curCabinet == Selection(cur0, picks[..i])
      invariant Footprint(room.curCabinet) <= Footprint(cur0) + Hits(picks)
      invariant events == Callbacks(cur0, picks[..i])
      invariant old(room.OnlyCurrentHighlighted(watched)) && PlainKey in room.maps ==> room.OnlyCurrentHighlighted(watched)
    {
      var p := picks[i];
      assert picks[..i + 1][..i] == picks[..i];
      var fired := room.SelectCabinet(p.x, p.y, p.hit, watched);
      events := events + fired;
      i := i + 1;
    }
    assert picks[..i] == picks;
  }

  /** A new room into which a model with top-level `children` has loaded. */
  method LoadedRoom(children: seq<Mesh>) returns (room: MachineRoom)
    requires Distinct(children)
    modifies children
    ensures fresh(room) && room.Valid() && room.curCabinet == None
    ensures room.cabinets == Selectable(children, old(MaterialsOf(children)))
    ensures room.maps.Keys == {HoverKey} + TextureNames(old(MaterialsOf(children)))
    ensures forall i :: 0 <= i < |children| ==> UnlitOf(children[i].material, old(children[i].material), room.maps)
  {
    room := new MachineRoom("./models/");
    room.LoadChildren(children);
  }

  /**
   * A model with three top-level children: `cabinet-01` (a textured cabinet
   * material), `rack-frame` (a plain grey material) and a mesh called
   * `cabinet-02` whose material is called `metal`. Only the first is
   * registered (the test is on the material's name), and each child gets
   * an unlit material: the cached `cabinet.jpg` or the grey.
   */
  method LoadModel() returns (room: MachineRoom, cabinet: Mesh, rack: Mesh, other: Mesh)
    ensures room.Valid()
    ensures room.cabinets == [cabinet] && room.curCabinet == None
    ensures room.maps.Keys == {HoverKey, PlainKey}
    ensures cabinet.material == Material(Basic, "", White, Some(room.maps[PlainKey]))
    ensures rack.material == Material(Basic, "", Color(0.5, 0.5, 0.5), None)
    ensures other.material == Material(Basic, "", White, None)
  {
    cabinet, rack, other := ModelChildren();
    var children := [cabinet, rack, other];
    ghost var mats := MaterialsOf(children);
    assert mats == [cabinet.material, rack.material, other.material];
    room := LoadedRoom(children);
    MarkedNames();
    RegisteredFirstOnly(children, mats);
    ThreeTextureNames(mats);
    assert children[0] == cabinet && children[1] == rack && children[2] == other;
    assert UnlitOf(cabinet.material, mats[0], room.maps);
    assert UnlitOf(rack.material, mats[1], room.maps);
    assert UnlitOf(other.material, mats[2], room.maps);
  }

  /** The top-level children of the model `LoadModel` loads, as the glTF loader hands them over. */
  method ModelChildren() returns (cabinet: Mesh, rack: Mesh, other: Mesh)
    ensures fresh(cabinet) && fresh(rack) && fresh(other)
    ensures cabinet != rack && cabinet != other && rack != other
    ensures cabinet.material.shading == Standard && cabinet.material.name == "cabinet-01"
    ensures cabinet.material.texture.Some? && cabinet.material.texture.value.name == PlainKey
    ensures rack.material == Material(Standard, "rack-frame", Color(0.5, 0.5, 0.5), None)
    ensures other.material == Material(Standard, "metal", White, None)
  {
    var image := new Texture.Decoded(PlainKey, "./models/machineRoom.gltf");
    cabinet := new Mesh("cabinet-01", Material(Standard, "cabinet-01", White, Some(image)), {});
    rack := new Mesh("rack-frame", Material(Standard, "rack-frame", Color(0.5, 0.5, 0.5), None), {});
    other := new Mesh("cabinet-02", Material(Standard, "metal", White, None), {});
  }

  /** Which of the scenario's material names carry the cabinet marker. */
  lemma MarkedNames()
    ensures Contains("cabinet-01", CabinetMarker) && Contains("cabinet-02", CabinetMarker)
    ensures !Contains("rack-frame", CabinetMarker) && !Contains("metal", CabinetMarker)
  {
    assert "cabinet-01"[..7] == CabinetMarker && "cabinet-02"[..7] == CabinetMarker;
    assert CabinetMarker[2] == 'b';
    forall j | 0 <= j < |"rack-frame"|
      ensures "rack-frame"[j] != CabinetMarker[2]
    {
    }
    Absent("rack-frame", CabinetMarker, 2);
  }

  /** A string without some character of `sub` does not contain `sub`. */
  lemma Absent(s: string, sub: string, k: int)
    requires 0 <= k < |sub|
    requires forall j :: 0 <= j < |s| ==> s[j] != sub[k]
    ensures !Contains(s, sub)
  {
  }

  /** Of three children, only the first is registered when only its material is marked. */
  lemma RegisteredFirstOnly(children: seq<Mesh>, mats: seq<Material>)
    requires |children| == |mats| == 3
    requires Contains(mats[0].name, CabinetMarker)
    requires !Contains(mats[1].name, CabinetMarker) && !Contains(mats[2].name, CabinetMarker)
    ensures Selectable(children, mats) == [children[0]]
  {
    assert children[..2][..1] == [children[0]] && mats[..2][..1] == [mats[0]];
    assert children[..2][..1][..0] == [] && mats[..2][..1][..0] == [];
    assert Selectable(children[..2][..1], mats[..2][..1]) == [children[0]];
  }

  /** The texture names of three materials of which only the first has a texture. */
  lemma ThreeTextureNames(mats: seq<Material>)
    requires |mats| == 3 && mats[0].texture.Some? && mats[1].texture.None? && mats[2].texture.None?
    ensures TextureNames(mats) == {mats[0].texture.value.name}
  {
    assert mats[..2][..1] == [mats[0]] && mats[..2][..1][..0] == [];
    assert TextureNames(mats[..2][..1]) == {mats[0].texture.value.name};
  }

  /** Materials without a texture name no texture. */
  lemma {:induction false} UntexturedNames(mats: seq<Material>)
    requires forall i :: 0 <= i < |mats| ==> mats[i].texture.None?
    ensures TextureNames(mats) == {}
    decreases |mats|
  {
    if mats != [] {
      UntexturedNames(mats[..|mats| - 1]);
    }
  }

  /** Of two children whose materials are both marked, both are registered, in order. */
  lemma BothRegistered(children: seq<Mesh>, mats: seq<Material>)
    requires |children| == |mats| == 2
    requires Contains(mats[0].name, CabinetMarker) && Contains(mats[1].name, CabinetMarker)
    ensures Selectable(children, mats) == children
  {
  }

  /** Two cabinets of a model whose cabinet materials are plain colours. */
  method PlainCabinets() returns (a: Mesh, b: Mesh)
    ensures fresh(a) && fresh(b) && a != b
    ensures a.material == Material(Standard, "cabinet-01", Color(0.5, 0.5, 0.5), None)
    ensures b.material == Material(Standard, "cabinet-02", Color(0.5, 0.5, 0.5), None)
  {
    a := new Mesh("cabinet-01", Material(Standard, "cabinet-01", Color(0.5, 0.5, 0.5), None), {});
    b := new Mesh("cabinet-02", Material(Standard, "cabinet-02", Color(0.5, 0.5, 0.5), None), {});
  }

  /**
   * A new room after loading a model whose two cabinets have plain-colour
   * materials: both are registered and unlit, and `cabinet.jpg` was never
   * cached.
   */
  method LoadPlainCabinets() returns (room: MachineRoom, a: Mesh, b: Mesh)
    ensures fresh(room) && fresh(a) && fresh(b)
    ensures room.Valid() && room.curCabinet == None
    ensures room.cabinets == [a, b] && a != b
    ensures PlainKey !in room.maps
    ensures a.material == Material(Basic, "", Color(0.5, 0.5, 0.5), None)
    ensures b.material == Material(Basic, "", Color(0.5, 0.5, 0.5), None)
  {
    a, b := PlainCabinets();
    ghost var mats := MaterialsOf([a, b]);
    room := LoadedRoom([a, b]);
    UntexturedNames(mats);
    MarkedNames();
    BothRegistered([a, b], mats);
    assert [a, b][0] == a && [a, b][1] == b;
    assert UnlitOf(a.material, mats[0], room.maps) && UnlitOf(b.material, mats[1], room.maps);
  }

  /**
   * A model whose cabinets carry no `cabinet.jpg`: the pointer moves from
   * cabinet `a` to cabinet `b`, and `a` keeps the hover texture, because the
   * reset looks up a texture that was never cached and three.js skips it.
   */
  method StaleHighlight() returns (room: MachineRoom, a: Mesh, b: Mesh)
    ensures a != b && room.curCabinet == Some(b) && HoverKey in room.maps
    ensures a.material.texture == Some(room.maps[HoverKey])
    ensures b.material.texture == Some(room.maps[HoverKey])
  {
    room, a, b := LoadPlainCabinets();
    RegisteredHittable(a, room.cabinets);
    RegisteredHittable(b, room.cabinets);
    var entered := room.SelectCabinet(100.0, 80.0, Some(a), {});
    var moved := room.SelectCabinet(140.0, 80.0, Some(b), {});
  }

  /** The same moves with the corrected reset: only `b` shows the hover texture. */
  method RestoredHighlight() returns (room: MachineRoom, a: Mesh, b: Mesh)
    ensures a != b && room.curCabinet == Some(b) && HoverKey in room.maps && PlainKey in room.maps
    ensures a.material.texture == Some(room.maps[PlainKey])
    ensures b.material.texture == Some(room.maps[HoverKey])
    ensures a.material.texture != b.material.texture
  {
    room, a, b := LoadPlainCabinets();
    RegisteredHittable(a, room.cabinets);
    RegisteredHittable(b, room.cabinets);
    var entered := room.SelectCabinetRestoring(100.0, 80.0, Some(a), {});
    var moved := room.SelectCabinetRestoring(140.0, 80.0, Some(b), {});
  }

  /** Hits on `a`, `a`, `b`, then nothing: enter `a`, move over it, enter `b`, leave. */
  method PickSequence(room: MachineRoom, a: Mesh, b: Mesh) returns (events: seq<Event>)
    requires room.Valid() && room.curCabinet == None && a != b
    requires a in room.cabinets && b in room.cabinets
    modifies room, a, b
    ensures room.curCabinet == None
    ensures events == [Move(1.0, 1.0), Over(a), Move(2.0, 2.0), Move(3.0, 3.0), Over(b), Out]
  {
    var picks := [Pick(Some(a), 1.0, 1.0), Pick(Some(a), 2.0, 2.0), Pick(Some(b), 3.0, 3.0), Pick(None, 4.0, 4.0)];
    FourPicks(a, b);
    RegisteredHittable(a, room.cabinets);
    RegisteredHittable(b, room.cabinets);
    forall i | 0 <= i < |picks|
      ensures Hittable(picks[i].hit, room.cabinets)
    {
    }
    events := Hover(room, picks, {});
  }

  /** The callbacks of the pick sequence A, A, B, none from no selection, and the selection it leaves. */
  lemma FourPicks(a: Mesh, b: Mesh)
    requires a != b
    ensures var picks := [Pick(Some(a), 1.0, 1.0), Pick(Some(a), 2.0, 2.0), Pick(Some(b), 3.0, 3.0), Pick(None, 4.0, 4.0)];
      && Hits(picks) <= {a, b}
      && Callbacks(None, picks) == [Move(1.0, 1.0), Over(a), Move(2.0, 2.0), Move(3.0, 3.0), Over(b), Out]
      && Selection(None, picks) == None
  {
    var picks := [Pick(Some(a), 1.0, 1.0), Pick(Some(a), 2.0, 2.0), Pick(Some(b), 3.0, 3.0), Pick(None, 4.0, 4.0)];
    var first1, first2, first3 := picks[..1], picks[..2], picks[..3];
    assert picks[..3] == first3 && first3[..2] == first2 && first2[..1] == first1 && first1[..0] == [];
    assert Callbacks(None, first1) == [Move(1.0, 1.0), Over(a)];
    assert Callbacks(None, first2) == [Move(1.0, 1.0), Over(a), Move(2.0, 2.0)];
    assert Callbacks(None, first3) == [Move(1.0, 1.0), Over(a), Move(2.0, 2.0), Move(3.0, 3.0), Over(b)];
  }

  /**
   * A pick on a new room, before any model has loaded: whatever the ray
   * cast against the (empty) cabinets can return, no callback fires and
   * nothing is selected.
   */
  method PickBeforeLoad(hit: Option<Mesh>) returns (room: MachineRoom, events: seq<Event>)
    requires Hittable(hit, [])
    ensures room.modelPath == "./models/"
    ensures events == [] && room.curCabinet == None && room.cabinets == []
  {
    room := new MachineRoom();
    events := room.SelectCabinet(100.0, 80.0, hit, {});
  }
}
