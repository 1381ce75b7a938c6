/**
 * The callback side of hover selection, as values: which of the three
 * observer callbacks one pick fires, and what a sequence of picks fires.
 */
module Picking {
  import opened Scene

  /** One observer callback invocation: `onMouseMoveCabinet(x, y)`, `onMouseOverCabinet(obj)`, `onMouseOutCabinet()`. */
  datatype Event = Move(x: real, y: real) | Over(cabinet: Mesh) | Out

  /**
   * The callbacks one `selectCabinet(x, y)` fires, given the selection `cur`
   * before the call and the nearest hit of the pointer ray.
   */
  function Trace(cur: Option<Mesh>, hit: Option<Mesh>, x: real, y: real): (events: seq<Event>)
    ensures Move(x, y) in events <==> hit.Some?
    ensures (exists i :: 0 <= i < |events| && events[i].Over?) <==> hit.Some? && hit != cur
    ensures forall i :: 0 <= i < |events| && events[i].Over? ==> hit == Some(events[i].cabinet)
    ensures Out in events <==> hit.None? && cur.Some?
    ensures events == [] <==> hit.None? && cur.None?
    ensures hit.Some? ==> events[0] == Move(x, y) && |events| <= 2
    ensures hit.None? ==> |events| <= 1
    ensures hit.Some? && hit == cur ==> events == [Move(x, y)]
    ensures hit.Some? && hit != cur ==> events == [Move(x, y), Over(hit.value)]
    ensures hit.None? && cur.Some? ==> events == [Out]
  {
    match hit
    case Some(obj) =>
      var events := [Move(x, y)] + (if hit != cur then [Over(obj)] else []);
      assert hit != cur ==> events[1].Over?;
      events
    case None => if cur.Some? then [Out] else []
  }

  /** One pointer move: the nearest hit and the pointer coordinates. */
  datatype Pick = Pick(hit: Option<Mesh>, x: real, y: real)

  /** The selection after a sequence of picks starting from `cur`. */
  function Selection(cur: Option<Mesh>, picks: seq<Pick>): (r: Option<Mesh>)
  {
    if picks == [] then cur else picks[|picks| - 1].hit
  }

  /** The callbacks a sequence of picks fires, starting from the selection `cur`. */
  function Callbacks(cur: Option<Mesh>, picks: seq<Pick>): (events: seq<Event>)
    decreases |picks|
  {
    if picks == [] then []
    else
      var n := |picks| - 1;
      Callbacks(cur, picks[..n]) + Trace(Selection(cur, picks[..n]), picks[n].hit, picks[n].x, picks[n].y)
  }

  /** The meshes a sequence of picks hits. */
  function Hits(picks: seq<Pick>): (r: set<Mesh>)
    ensures forall i :: 0 <= i < |picks| && picks[i].hit.Some? ==> picks[i].hit.value in r
  {
    set i | 0 <= i < |picks| && picks[i].hit.Some? :: picks[i].hit.value
  }

  /**
   * The protocol a callback consumer (a tooltip, say) can rely on, with
   * `entered` telling whether the pointer is over a cabinet: `Out` only
   * while over one, and never `Over` of the cabinet it is already over.
   */
  ghost predicate Nested(events: seq<Event>, entered: Option<Mesh>)
    decreases |events|
  {
    if events == [] then true
    else match events[0]
      case Move(_, _) => Nested(events[1..], entered)
      case Over(o) => entered != Some(o) && Nested(events[1..], Some(o))
      case Out => entered.Some? && Nested(events[1..], None)
  }

  lemma {:induction false} NestedAppend(a: seq<Event>, b: seq<Event>, entered: Option<Mesh>, mid: Option<Mesh>)
    requires Nested(a, entered) && Nested(b, mid)
    requires LastEntered(a, entered) == mid
    ensures Nested(a + b, entered)
    decreases |a|
  {
    if a == [] {
      assert a + b == b;
    } else {
      assert (a + b)[0] == a[0] && (a + b)[1..] == a[1..] + b;
      match a[0]
      case Move(_, _) => NestedAppend(a[1..], b, entered, mid);
      case Over(o) => NestedAppend(a[1..], b, Some(o), mid);
      case Out => NestedAppend(a[1..], b, None, mid);
    }
  }

  /** Which cabinet the consumer believes the pointer is over after `events`. */
  function LastEntered(events: seq<Event>, entered: Option<Mesh>): (r: Option<Mesh>)
    decreases |events|
  {
    if events == [] then entered
    else match events[0]
      case Move(_, _) => LastEntered(events[1..], entered)
      case Over(o) => LastEntered(events[1..], Some(o))
      case Out => LastEntered(events[1..], None)
  }

  /** One pick keeps the protocol and leaves the consumer believing the selection is the hit. */
  lemma TraceNested(cur: Option<Mesh>, hit: Option<Mesh>, x: real, y: real)
    ensures Nested(Trace(cur, hit, x, y), cur)
    ensures LastEntered(Trace(cur, hit, x, y), cur) == hit
  {
    var t := Trace(cur, hit, x, y);
    match hit
    case Some(obj) =>
      if hit != cur {
        assert t == [Move(x, y), Over(obj)] && t[1..] == [Over(obj)] && t[1..][1..] == [];
        assert LastEntered(t[1..], cur) == LastEntered([], hit);
      } else {
        assert t == [Move(x, y)] && t[1..] == [];
      }
    case None =>
      if cur.Some? {
        assert t == [Out] && t[1..] == [];
      }
  }

  /**
   * Over any sequence of picks, the callbacks follow the protocol: `Out` only
   * after an `Over` with no `Out` in between, no repeated `Over` of the
   * selected cabinet, and the consumer's view ends at the selection.
   */
  lemma {:induction false} CallbacksNested(cur: Option<Mesh>, picks: seq<Pick>)
    ensures Nested(Callbacks(cur, picks), cur)
    ensures LastEntered(Callbacks(cur, picks), cur) == Selection(cur, picks)
    decreases |picks|
  {
    if picks != [] {
      var n := |picks| - 1;
      var p, before := picks[n], Callbacks(cur, picks[..n]);
      var mid := Selection(cur, picks[..n]);
      var t := Trace(mid, p.hit, p.x, p.y);
      CallbacksNested(cur, picks[..n]);
      TraceNested(mid, p.hit, p.x, p.y);
      NestedAppend(before, t, cur, mid);
      LastEnteredAppend(before, t, cur);
    }
  }

  lemma {:induction false} LastEnteredAppend(a: seq<Event>, b: seq<Event>, entered: Option<Mesh>)
    ensures LastEntered(a + b, entered) == LastEntered(b, LastEntered(a, entered))
    decreases |a|
  {
    if a == [] {
      assert a + b == b;
    } else {
      assert (a + b)[0] == a[0] && (a + b)[1..] == a[1..] + b;
      match a[0]
      case Move(_, _) => LastEnteredAppend(a[1..], b, entered);
      case Over(o) => LastEnteredAppend(a[1..], b, Some(o));
      case Out => LastEnteredAppend(a[1..], b, None);
    }
  }

  /**
   * The pointer position `(x, y)` on a `width` by `height` canvas (pixels,
   * origin top-left, y downwards) in clip space: x from -1 at the left edge
   * to 1 at the right, y from 1 at the top to -1 at the bottom.
   */
  function ClipPoint(x: real, y: real, width: real, height: real): (p: (real, real))
    requires width > 0.0 && height > 0.0
    ensures x == (p.0 + 1.0) * width / 2.0
    ensures y == (1.0 - p.1) * height / 2.0
  {
    ((x / width) * 2.0 - 1.0, -(y / height) * 2.0 + 1.0)
  }

  /** The corners and the centre of the canvas land on the corners and the centre of clip space. */
  lemma ClipCorners(width: real, height: real)
    requires width > 0.0 && height > 0.0
    ensures ClipPoint(0.0, 0.0, width, height) == (-1.0, 1.0)
    ensures ClipPoint(width, height, width, height) == (1.0, -1.0)
    ensures ClipPoint(width / 2.0, height / 2.0, width, height) == (0.0, 0.0)
  {
    assert width / width == 1.0 && height / height == 1.0;
    assert (width / 2.0) / width == 0.5 && (height / 2.0) / height == 0.5;
  }
}
