/**
 What it means that a list is made from the chosen elements of another: in order, each once,
 and none left out. The walks that filter, copy or convert a list are proved against this.
 */
module Selection {
  /** `from` tells for each of `rs` the place of the element of `ws` that it is made from. */
  ghost predicate Drawn<W, R>(chosen: W -> bool, made: (W, R) -> bool, ws: seq<W>, rs: seq<R>, from: seq<nat>) {
    && |from| == |rs| && (forall a, b :: 0 <= a < b < |from| ==> from[a] < from[b])
    && (forall b :: 0 <= b < |from| ==> from[b] < |ws| && chosen(ws[from[b]]) && made(ws[from[b]], rs[b]))
    && forall a :: 0 <= a < |ws| && chosen(ws[a]) ==> a in from
  }

  lemma DrawnNext<W, R>(chosen: W -> bool, made: (W, R) -> bool, ws: seq<W>, w: W, rs: seq<R>, r: R, from: seq<nat>)
    requires Drawn(chosen, made, ws, rs, from) && chosen(w) && made(w, r)
    ensures Drawn(chosen, made, ws + [w], rs + [r], from + [|ws|])
  {
    var all, from' := ws + [w], from + [|ws|];
    forall a | 0 <= a < |all| && chosen(all[a]) ensures a in from' {
      assert from'[|from|] == |ws|;
    }
  }

  lemma DrawnPast<W, R>(chosen: W -> bool, made: (W, R) -> bool, ws: seq<W>, w: W, rs: seq<R>, from: seq<nat>)
    requires Drawn(chosen, made, ws, rs, from) && !chosen(w)
    ensures Drawn(chosen, made, ws + [w], rs, from)
  {
  }

  /** The chosen elements, in their order. */
  function Filter<W>(chosen: W -> bool, ws: seq<W>): seq<W> {
    if ws == [] then []
    else
      var w := ws[|ws| - 1];
      Filter(chosen, ws[..|ws| - 1]) + if chosen(w) then [w] else []
  }

  /** Every element converted. */
  function Each<W, R>(f: W -> R, ws: seq<W>): seq<R> {
    seq(|ws|, i requires 0 <= i < |ws| => f(ws[i]))
  }

  ghost function Same<W>(): (W, W) -> bool {
    (w, r) => w == r
  }

  lemma {:induction false} FilterIsDrawn<W>(chosen: W -> bool, ws: seq<W>) returns (from: seq<nat>)
    ensures Drawn(chosen, Same<W>(), ws, Filter(chosen, ws), from)
  {
    from := [];
    if ws != [] {
      var n := |ws| - 1;
      var front, w := ws[..n], ws[n];
      from := FilterIsDrawn(chosen, front);
      assert front + [w] == ws;
      if chosen(w) {
        DrawnNext(chosen, Same<W>(), front, w, Filter(chosen, front), w, from);
        from := from + [n];
      } else {
        DrawnPast(chosen, Same<W>(), front, w, Filter(chosen, front), from);
      }
    }
  }

  lemma {:induction false} FilterConcat<W>(chosen: W -> bool, a: seq<W>, b: seq<W>)
    ensures Filter(chosen, a + b) == Filter(chosen, a) + Filter(chosen, b)
  {
    if b == [] {
      assert a + b == a;
    } else {
      var n := |b| - 1;
      assert (a + b)[..|a + b| - 1] == a + b[..n] && (a + b)[|a + b| - 1] == b[n];
      FilterConcat(chosen, a, b[..n]);
    }
  }

  /** The same from the front. */
  lemma FilterFirst<W>(chosen: W -> bool, ws: seq<W>)
    requires ws != []
    ensures Filter(chosen, ws) == (if chosen(ws[0]) then [ws[0]] else []) + Filter(chosen, ws[1..])
  {
    assert [ws[0]] + ws[1..] == ws && [ws[0]][..0] == [];
    FilterConcat(chosen, [ws[0]], ws[1..]);
  }

  lemma {:induction false} FilterAll<W>(chosen: W -> bool, ws: seq<W>)
    requires forall i :: 0 <= i < |ws| ==> chosen(ws[i])
    ensures Filter(chosen, ws) == ws
  {
    if ws != [] {
      FilterAll(chosen, ws[..|ws| - 1]);
    }
  }

  lemma {:induction false} FilterSame<W>(chosen: W -> bool, other: W -> bool, ws: seq<W>)
    requires forall i :: 0 <= i < |ws| ==> chosen(ws[i]) == other(ws[i])
    ensures Filter(chosen, ws) == Filter(other, ws)
  {
    if ws != [] {
      FilterSame(chosen, other, ws[..|ws| - 1]);
    }
  }

  /** An element is in the result exactly if it is chosen. */
  lemma {:induction false} FilterHas<W>(chosen: W -> bool, ws: seq<W>, w: W)
    ensures w in Filter(chosen, ws) <==> w in ws && chosen(w)
  {
    if ws != [] {
      FilterHas(chosen, ws[..|ws| - 1], w);
      assert ws == ws[..|ws| - 1] + [ws[|ws| - 1]];
    }
  }
}
