/**
 The endlessly scrolling background: two copies of one image, each as tall
 as the pane, stacked vertically. Every tick both move down 2 units, and a
 copy that has gone past the bottom is put back directly above the other.
 */
module Background {

  const ScrollSpeed: real := 2.0

  /** The vertical positions of the two background copies. */
  datatype Tiles = Tiles(y1: real, y2: real)

  /** Initial placement: the first copy fills the pane, the second sits just below it. */
  function Initial(paneHeight: real): (t: Tiles)
    ensures t.y1 == 0.0 && t.y2 - t.y1 == paneHeight
  {
    Tiles(0.0, paneHeight)
  }

  /** One scroll tick: move both down, then wrap the first, then the second. */
  function Tick(t: Tiles, h: real): (r: Tiles)
    ensures t.y1 + ScrollSpeed < h ==> r.y1 == t.y1 + ScrollSpeed
    ensures t.y1 + ScrollSpeed >= h ==> r.y1 == t.y2 + ScrollSpeed - h
    ensures r.y2 == (if t.y2 + ScrollSpeed >= h then r.y1 - h else t.y2 + ScrollSpeed)
  {
    var a := t.y1 + ScrollSpeed;
    var b := t.y2 + ScrollSpeed;
    var a' := if a >= h then b - h else a;
    var b' := if b >= h then a' - h else b;
    Tiles(a', b')
  }

  /** The lower copy (larger y) and the upper one (smaller y). */
  function Lower(t: Tiles): real { if t.y1 >= t.y2 then t.y1 else t.y2 }
  function Upper(t: Tiles): real { if t.y1 >= t.y2 then t.y2 else t.y1 }

  /** The copies are exactly one pane height apart, the lower one's top within [0, h]. */
  predicate Stacked(t: Tiles, h: real) {
    Lower(t) - Upper(t) == h && 0.0 <= Lower(t) <= h
  }

  /** Together the two copies cover the whole pane [0, h]. */
  predicate Covers(t: Tiles, h: real) {
    Upper(t) <= 0.0 && h <= Lower(t) + h && Upper(t) + h == Lower(t)
  }

  /** Stacked copies cover the pane. */
  lemma StackedCovers(t: Tiles, h: real)
    requires h > 0.0
    requires Stacked(t, h)
    ensures Covers(t, h)
  {
  }

  /** The initial placement is stacked, with the lower copy's top exactly at h. */
  lemma InitialStacked(h: real)
    requires h > 0.0
    ensures Stacked(Initial(h), h)
  {
  }

  /** A tick from a stacked placement leaves the copies stacked with the lower one's top in [0, h). */
  lemma TickKeepsStacked(t: Tiles, h: real)
    requires h > ScrollSpeed
    requires Stacked(t, h)
    ensures Stacked(Tick(t, h), h)
    ensures 0.0 <= Lower(Tick(t, h)) < h
  {
  }

  /** `n` ticks from the initial placement. */
  function Scroll(h: real, n: nat): Tiles {
    if n == 0 then Initial(h) else Tick(Scroll(h, n - 1), h)
  }

  /** After every tick the copies are one pane apart, the lower top in [0, h), so [0, h] stays covered. */
  lemma {:induction false} ScrollAlwaysCovers(h: real, n: nat)
    requires h > ScrollSpeed
    ensures Stacked(Scroll(h, n), h)
    ensures n >= 1 ==> 0.0 <= Lower(Scroll(h, n)) < h
    ensures Covers(Scroll(h, n), h)
  {
    if n == 0 {
      InitialStacked(h);
    } else {
      ScrollAlwaysCovers(h, n - 1);
      TickKeepsStacked(Scroll(h, n - 1), h);
    }
    StackedCovers(Scroll(h, n), h);
  }
}
