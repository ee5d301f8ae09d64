/** scripts/finops/generate-dashboards.js: packing panels on a 24-column grid. */
module GridLayout {

  const WIDTH := 24

  datatype Rect = Rect(x: int, y: int, w: int, h: int)

  /** One call on the layout: a full-width block, or a row of equal columns. */
  datatype Call = Full(h: nat) | Cols(n: nat, h: nat)

  predicate Disjoint(a: Rect, b: Rect) {
    a.x + a.w <= b.x || b.x + b.w <= a.x || a.y + a.h <= b.y || b.y + b.h <= a.y
  }

  predicate InStrip(r: Rect, top: int, bottom: int) {
    0 <= r.x && 0 <= r.w && r.x + r.w <= WIDTH && top <= r.y && 0 <= r.h && r.y + r.h <= bottom
  }

  /** Inside the grid between two heights, and without overlap. */
  ghost predicate Packed(rs: seq<Rect>, top: int, bottom: int) {
    && (forall i | 0 <= i < |rs| :: InStrip(rs[i], top, bottom))
    && (forall i, j | 0 <= i < j < |rs| :: Disjoint(rs[i], rs[j]))
  }

  /** Math.floor(W / n); a row without columns has no panels to be wide. */
  function ColumnWidth(n: nat): nat {
    if n == 0 then 0 else WIDTH / n
  }

  function Row(n: nat, h: nat, y: nat): (rs: seq<Rect>)
    ensures |rs| == n
    ensures forall i | 0 <= i < n :: rs[i] == Rect(i * ColumnWidth(n), y, ColumnWidth(n), h)
  {
    seq(n, i requires 0 <= i < n => Rect(i * ColumnWidth(n), y, ColumnWidth(n), h))
  }

  function Placed(c: Call, y: nat): seq<Rect> {
    match c
    case Full(h) => [Rect(0, y, WIDTH, h)]
    case Cols(n, h) => Row(n, h, y)
  }

  function AllPlaced(calls: seq<Call>, y: nat): seq<Rect> {
    if calls == [] then [] else Placed(calls[0], y) + AllPlaced(calls[1..], y + calls[0].h)
  }

  function Height(calls: seq<Call>): nat {
    if calls == [] then 0 else calls[0].h + Height(calls[1..])
  }

  lemma ColumnsFit(n: nat, i: nat)
    requires i < n
    ensures i * ColumnWidth(n) + ColumnWidth(n) <= WIDTH
  {
    var w := WIDTH / n;
    assert n * w <= WIDTH;
    assert (i + 1) * w <= n * w by {
      assert (n - i - 1) * w >= 0;
    }
  }

  lemma RowPacked(n: nat, h: nat, y: nat)
    ensures Packed(Row(n, h, y), y, y + h)
  {
    forall i | 0 <= i < n
      ensures InStrip(Row(n, h, y)[i], y, y + h)
    {
      ColumnsFit(n, i);
      assert 0 <= i * ColumnWidth(n);
    }
    forall i, j | 0 <= i < j < n
      ensures Disjoint(Row(n, h, y)[i], Row(n, h, y)[j])
    {
      var w := ColumnWidth(n);
      assert i * w + w == (i + 1) * w;
      assert (j - i - 1) * w >= 0;
      assert (i + 1) * w <= j * w;
    }
  }

  /** Stacked strips do not meet. */
  lemma Stack(a: seq<Rect>, b: seq<Rect>, top: int, middle: int, bottom: int)
    requires top <= middle <= bottom && Packed(a, top, middle) && Packed(b, middle, bottom)
    ensures Packed(a + b, top, bottom)
  {
    forall i, j | 0 <= i < j < |a + b|
      ensures Disjoint((a + b)[i], (a + b)[j])
    {
      if i < |a| <= j {
        assert InStrip(a[i], top, middle) && InStrip(b[j - |a|], middle, bottom);
      }
    }
  }

  /** Whatever is called in whatever order, no two panels overlap and none leaves the grid. */
  lemma {:induction false} NeverOverlaps(calls: seq<Call>, y: nat)
    ensures Packed(AllPlaced(calls, y), y, y + Height(calls))
  {
    if calls != [] {
      var c := calls[0];
      NeverOverlaps(calls[1..], y + c.h);
      if c.Cols? {
        RowPacked(c.n, c.h, y);
      }
      Stack(Placed(c, y), AllPlaced(calls[1..], y + c.h), y, y + c.h, y + Height(calls));
    }
  }

  // ---------------------------------------------------------------- the layout object

  class Layout {
    var y: nat
    ghost var calls: seq<Call>

    ghost predicate Valid()
      reads this
    {
      y == Height(calls)
    }

    constructor ()
      ensures Valid() && y == 0 && calls == []
    {
      y, calls := 0, [];
    }

    method PlaceFull(h: nat) returns (pos: Rect)
      requires Valid()
      modifies this
      ensures Valid() && calls == old(calls) + [Full(h)]
      ensures [pos] == Placed(Full(h), old(y)) && y == old(y) + h
      ensures pos == Rect(0, old(y), 24, h)
    {
      pos := Rect(0, y, WIDTH, h);
      HeightSnoc(calls, Full(h));
      y, calls := y + h, calls + [Full(h)];
    }

    method PlaceCols(n: nat, h: nat) returns (out: seq<Rect>)
      requires Valid()
      modifies this
      ensures Valid() && calls == old(calls) + [Cols(n, h)]
      ensures out == Placed(Cols(n, h), old(y)) && y == old(y) + h
      ensures |out| == n
      ensures forall i | 0 <= i < n :: out[i].y == old(y) && out[i].h == h && out[i].x == i * out[i].w
      ensures forall i | 0 <= i < n :: n * out[i].w <= 24 < n * (out[i].w + 1)
    {
      var w := ColumnWidth(n);
      out := [];
      for i := 0 to n
        invariant |out| == i && forall k | 0 <= k < i :: out[k] == Rect(k * w, y, w, h)
      {
        out := out + [Rect(i * w, y, w, h)];
      }
      HeightSnoc(calls, Cols(n, h));
      y, calls := y + h, calls + [Cols(n, h)];
    }
  }

  lemma {:induction false} HeightSnoc(calls: seq<Call>, c: Call)
    ensures Height(calls + [c]) == Height(calls) + c.h
  {
    if calls != [] {
      HeightSnoc(calls[1..], c);
      assert (calls + [c])[1..] == calls[1..] + [c];
    }
  }

  lemma Associates(a: seq<Rect>, b: seq<Rect>, c: seq<Rect>)
    ensures a + (b + c) == (a + b) + c
  {
  }

  lemma {:induction false} PlacedSnoc(calls: seq<Call>, c: Call, y: nat)
    ensures AllPlaced(calls + [c], y) == AllPlaced(calls, y) + Placed(c, y + Height(calls))
  {
    if calls == [] {
      assert (calls + [c])[1..] == [];
    } else {
      var first, rest, y' := Placed(calls[0], y), calls[1..], y + calls[0].h;
      PlacedSnoc(rest, c, y');
      assert (calls + [c])[1..] == rest + [c];
      Associates(first, AllPlaced(rest, y'), Placed(c, y' + Height(rest)));
    }
  }

  /** A whole dashboard: what the object hands out is packed. */
  method Build(plan: seq<Call>) returns (rs: seq<Rect>)
    ensures rs == AllPlaced(plan, 0)
    ensures Packed(rs, 0, Height(plan))
  {
    var layout := new Layout();
    rs := [];
    for i := 0 to |plan|
      invariant layout.Valid() && layout.calls == plan[..i] && fresh(layout)
      invariant rs == AllPlaced(plan[..i], 0)
    {
      assert plan[..i + 1] == plan[..i] + [plan[i]];
      PlacedSnoc(plan[..i], plan[i], 0);
      match plan[i] {
        case Full(h) =>
          var pos := layout.PlaceFull(h);
          rs := rs + [pos];
        case Cols(n, h) =>
          var row := layout.PlaceCols(n, h);
          rs := rs + row;
      }
    }
    assert plan[..|plan|] == plan;
    NeverOverlaps(plan, 0);
  }

  const SOURCE_HEIGHT := 8

  /** buildDetail: the sources two per row, each at its place in catalogue order. */
  method PlaceSources(layout: Layout, entries: nat) returns (rs: seq<Rect>)
    requires layout.Valid()
    modifies layout
    ensures layout.Valid() && layout.y == old(layout.y) + SOURCE_HEIGHT * ((entries + 1) / 2)
    ensures |rs| == entries
    ensures forall k | 0 <= k < entries ::
            rs[k] == Rect(12 * (k % 2), old(layout.y) + SOURCE_HEIGHT * (k / 2), 12, SOURCE_HEIGHT)
  {
    rs := [];
    var i: nat := 0;
    while i < entries
      invariant layout.Valid()
      invariant i % 2 == 0 && |rs| == if i <= entries then i else entries
      invariant i <= entries + 1
      invariant layout.y == old(layout.y) + SOURCE_HEIGHT * (i / 2)
      invariant forall k | 0 <= k < |rs| ::
                rs[k] == Rect(12 * (k % 2), old(layout.y) + SOURCE_HEIGHT * (k / 2), 12, SOURCE_HEIGHT)
    {
      var cols := layout.PlaceCols(2, SOURCE_HEIGHT);
      assert |cols| == 2 && cols[0] == Rect(0 * 12, layout.y - SOURCE_HEIGHT, 12, SOURCE_HEIGHT);
      assert cols[1] == Rect(1 * 12, layout.y - SOURCE_HEIGHT, 12, SOURCE_HEIGHT);
      rs := rs + [cols[0]];
      if i + 1 < entries {
        rs := rs + [cols[1]];
      }
      i := i + 2;
    }
  }
}
