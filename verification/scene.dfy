/**
 * The slice of the three.js scene graph that the machine room touches:
 * texture handles, mesh materials and meshes. Textures and meshes are
 * objects (their identity matters), a material is the value of the
 * parameters the room reads and writes.
 */
module Scene {

  /** `T | null` and `T | undefined` in the original. */
  datatype Option<+T> = None | Some(value: T)

  /** three.js wrapping modes (`RepeatWrapping`, `ClampToEdgeWrapping`). */
  const RepeatWrapping: int := 1000
  const ClampToEdgeWrapping: int := 1001

  /** A colour with red, green and blue components. */
  datatype Color = Color(r: real, g: real, b: real)

  /** The default colour of a new unlit material (0xffffff). */
  const White: Color := Color(1.0, 1.0, 1.0)

  /**
   * An image texture handle. `Load` stands for `new TextureLoader().load(url)`:
   * it hands back a new handle at once, with three.js's defaults, while the
   * image itself arrives later.
   */
  class Texture {
    const name: string
    const source: string
    var flipY: bool
    var wrapS: int
    var wrapT: int

    constructor Load(url: string)
      ensures name == "" && source == url
      ensures flipY && wrapS == ClampToEdgeWrapping && wrapT == ClampToEdgeWrapping
    {
      name := "";
      source := url;
      flipY := true;
      wrapS := ClampToEdgeWrapping;
      wrapT := ClampToEdgeWrapping;
    }

    /** A texture the glTF loader created for an image of the model, named after that image. */
    constructor Decoded(name: string, url: string)
      ensures this.name == name && source == url
    {
      this.name := name;
      source := url;
      flipY := false;
      wrapS := ClampToEdgeWrapping;
      wrapT := ClampToEdgeWrapping;
    }
  }

  /** `MeshStandardMaterial` (lit, what the glTF loader creates) or `MeshBasicMaterial` (unlit). */
  datatype Shading = Standard | Basic

  /** The material parameters the room reads (`color`, `map`, `name`) and writes. */
  datatype Material = Material(shading: Shading, name: string, color: Color, texture: Option<Texture>)

  /**
   * `material.setValues({ map: t })`. three.js skips (with a console warning)
   * a parameter whose value is `undefined`, so a missing texture leaves the
   * material as it was.
   */
  function SetMap(m: Material, t: Option<Texture>): (r: Material)
    ensures r.shading == m.shading && r.name == m.name && r.color == m.color
    ensures t.Some? ==> r.texture == t
    ensures t.None? ==> r.texture == m.texture
  {
    match t
    case None => m
    case Some(_) => m.(texture := t)
  }

  /** A mesh of the loaded scene; the room replaces its material and changes its texture. */
  class Mesh {
    const name: string
    var material: Material
    /** The meshes above this one in the scene graph. */
    const ancestors: set<Mesh>

    constructor(name: string, material: Material, ancestors: set<Mesh>)
      ensures this.name == name && this.material == material && this.ancestors == ancestors
    {
      this.name := name;
      this.material := material;
      this.ancestors := ancestors;
    }
  }

  /** The materials of a sequence of meshes, in order. */
  function MaterialsOf(meshes: seq<Mesh>): (r: seq<Material>)
    reads set i | 0 <= i < |meshes| :: meshes[i]
    ensures |r| == |meshes|
    ensures forall i :: 0 <= i < |meshes| ==> r[i] == meshes[i].material
  {
    seq(|meshes|, i reads meshes requires 0 <= i < |meshes| => meshes[i].material)
  }
}
