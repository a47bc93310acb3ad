/** Registers whose bits are assembled from, and taken apart into, several C fields.
    A layout lists pieces: piece `p` moves `p.width` bits of value number `p.value`,
    starting at bit `p.src` of the value, to bit `p.dst` of the register word. A value may
    be spread over several pieces, as the stall word does with its event and command bits. */
module Packing {
  import opened Bits

  datatype Piece = Piece(value: nat, src: nat, dst: nat, width: nat)

  /** `(v & (ones << src)) << (dst - src)`, the form of every `value |= ...` line. */
  function Place(p: Piece, v: nat): nat
    requires p.src <= p.dst
  {
    Shl(And(v, Shl(Mask(p.width), p.src)), p.dst - p.src)
  }

  /** `(word & (ones << dst)) >> (dst - src)`, the form of every read-back line. */
  function Fetch(p: Piece, word: nat): nat
    requires p.src <= p.dst
  {
    Shr(And(word, Shl(Mask(p.width), p.dst)), p.dst - p.src)
  }

  predicate LayoutOk(layout: seq<Piece>, n: nat) {
    forall k | 0 <= k < |layout| :: layout[k].src <= layout[k].dst && layout[k].value < n
  }

  predicate Apart(p: Piece, q: Piece) {
    p.dst + p.width <= q.dst || q.dst + q.width <= p.dst
  }

  /** No register bit belongs to two pieces. */
  predicate Disjoint(layout: seq<Piece>) {
    forall j, k | 0 <= j < k < |layout| :: Apart(layout[j], layout[k])
  }

  /** The word built by or-ing the pieces in the order of the layout. */
  function Pack(layout: seq<Piece>, values: seq<nat>): nat
    requires LayoutOk(layout, |values|)
  {
    if layout == [] then 0
    else
      var p := layout[|layout| - 1];
      Or(Pack(layout[..|layout| - 1], values), Place(p, values[p.value]))
  }

  /** Value number `v` read back by or-ing the pieces that carry it. */
  function Unpack(layout: seq<Piece>, word: nat, v: nat): nat
    requires forall k | 0 <= k < |layout| :: layout[k].src <= layout[k].dst
  {
    if layout == [] then 0
    else
      var p := layout[|layout| - 1];
      var rest := Unpack(layout[..|layout| - 1], word, v);
      if p.value == v then Or(rest, Fetch(p, word)) else rest
  }

  /** The bits of value number `v` that the layout carries. */
  function Carried(layout: seq<Piece>, v: nat): nat {
    if layout == [] then 0
    else
      var p := layout[|layout| - 1];
      var rest := Carried(layout[..|layout| - 1], v);
      if p.value == v then Or(rest, Shl(Mask(p.width), p.src)) else rest
  }

  predicate Covers(p: Piece, start: nat, i: nat) {
    start <= i < start + p.width
  }

  lemma PlaceBit(p: Piece, v: nat, i: nat)
    requires p.src <= p.dst
    ensures Bit(Place(p, v), i) <==> Covers(p, p.dst, i) && Bit(v, i - (p.dst - p.src))
  {
    ShlBit(And(v, Shl(Mask(p.width), p.src)), p.dst - p.src, i);
    if i >= p.dst - p.src {
      var j := i - (p.dst - p.src);
      AndBit(v, Shl(Mask(p.width), p.src), j);
      ShlBit(Mask(p.width), p.src, j);
      if j >= p.src { MaskBit(p.width, j - p.src); }
    }
  }

  lemma FetchBit(p: Piece, word: nat, i: nat)
    requires p.src <= p.dst
    ensures Bit(Fetch(p, word), i) <==> Covers(p, p.src, i) && Bit(word, i + (p.dst - p.src))
  {
    var j := i + (p.dst - p.src);
    ShrBit(And(word, Shl(Mask(p.width), p.dst)), p.dst - p.src, i);
    AndBit(word, Shl(Mask(p.width), p.dst), j);
    ShlBit(Mask(p.width), p.dst, j);
    if j >= p.dst { MaskBit(p.width, j - p.dst); }
  }

  /** With disjoint pieces, a register bit covered by piece `k` shows exactly the source bit
      of that piece. */
  lemma {:induction false} PackBit(layout: seq<Piece>, values: seq<nat>, k: nat, i: nat)
    requires LayoutOk(layout, |values|) && Disjoint(layout)
    requires k < |layout| && Covers(layout[k], layout[k].dst, i)
    ensures Bit(Pack(layout, values), i) <==> Bit(values[layout[k].value], i - (layout[k].dst - layout[k].src))
  {
    var n := |layout| - 1;
    var p := layout[n];
    var rest := layout[..n];
    OrBit(Pack(rest, values), Place(p, values[p.value]), i);
    PlaceBit(p, values[p.value], i);
    if k < n {
      assert Apart(layout[k], layout[n]);
      PackBit(rest, values, k, i);
    } else {
      forall j | 0 <= j < n
        ensures !Covers(layout[j], layout[j].dst, i)
      {
        assert Apart(layout[j], layout[n]);
      }
      PackBitClear(rest, values, i);
    }
  }

  /** A register bit no piece covers stays clear. */
  lemma {:induction false} PackBitClear(layout: seq<Piece>, values: seq<nat>, i: nat)
    requires LayoutOk(layout, |values|)
    requires forall j | 0 <= j < |layout| :: !Covers(layout[j], layout[j].dst, i)
    ensures !Bit(Pack(layout, values), i)
  {
    if layout == [] {
      ZeroBit(i);
    } else {
      var n := |layout| - 1;
      var p := layout[n];
      OrBit(Pack(layout[..n], values), Place(p, values[p.value]), i);
      PlaceBit(p, values[p.value], i);
      PackBitClear(layout[..n], values, i);
    }
  }

  /** With disjoint pieces, fetching piece `k` gives back the bits of its value that it carries. */
  lemma PieceBit(layout: seq<Piece>, values: seq<nat>, k: nat, i: nat)
    requires LayoutOk(layout, |values|) && Disjoint(layout) && k < |layout|
    ensures var p := layout[k];
            Bit(Fetch(p, Pack(layout, values)), i) <==> Bit(values[p.value], i) && Bit(Shl(Mask(p.width), p.src), i)
  {
    var p := layout[k];
    FetchBit(p, Pack(layout, values), i);
    ShlBit(Mask(p.width), p.src, i);
    if i >= p.src { MaskBit(p.width, i - p.src); }
    if Covers(p, p.src, i) { PackBit(layout, values, k, i + (p.dst - p.src)); }
  }

  /** Reading back: bit `i` of the fetched value is bit `i` of the packed value when the
      layout carries that bit, and clear otherwise. `prefix` walks along the layout. */
  lemma {:induction false} UnpackBit(layout: seq<Piece>, values: seq<nat>, v: nat, prefix: nat, i: nat)
    requires LayoutOk(layout, |values|) && Disjoint(layout)
    requires v < |values| && prefix <= |layout|
    ensures Bit(Unpack(layout[..prefix], Pack(layout, values), v), i)
            <==> Bit(values[v], i) && Bit(Carried(layout[..prefix], v), i)
  {
    var word := Pack(layout, values);
    if prefix == 0 {
      ZeroBit(i);
    } else {
      var p := layout[prefix - 1];
      assert layout[..prefix][..prefix - 1] == layout[..prefix - 1];
      UnpackBit(layout, values, v, prefix - 1, i);
      if p.value == v {
        OrBit(Unpack(layout[..prefix - 1], word, v), Fetch(p, word), i);
        OrBit(Carried(layout[..prefix - 1], v), Shl(Mask(p.width), p.src), i);
        PieceBit(layout, values, prefix - 1, i);
      }
    }
  }

  /** Packing then unpacking returns every value masked to the bits its pieces carry, for
      every layout whose pieces do not overlap in the register. */
  lemma RoundTrip(layout: seq<Piece>, values: seq<nat>, v: nat)
    requires LayoutOk(layout, |values|) && Disjoint(layout) && v < |values|
    ensures Unpack(layout, Pack(layout, values), v) == And(values[v], Carried(layout, v))
  {
    var back := Unpack(layout, Pack(layout, values), v);
    var masked := And(values[v], Carried(layout, v));
    assert layout[..|layout|] == layout;
    forall i: nat
      ensures Bit(back, i) <==> Bit(masked, i)
    {
      UnpackBit(layout, values, v, |layout|, i);
      AndBit(values[v], Carried(layout, v), i);
    }
    SameBits(back, masked);
  }

  /** If two pieces overlap there are values the register cannot return: disjointness is
      needed for the round trip, not only sufficient. */
  lemma OverlapLoses(p: Piece, q: Piece)
    requires p.src <= p.dst && q.src <= q.dst && p.value == 0 && q.value == 1
    requires p.width > 0 && q.width > 0 && !Apart(p, q)
    ensures exists values: seq<nat> ::
              |values| == 2 && Unpack([p, q], Pack([p, q], values), 0) != And(values[0], Carried([p, q], 0))
  {
    // A bit both pieces own, set through q while p's value is zero.
    var i := if p.dst < q.dst then q.dst else p.dst;
    var values: seq<nat> := [0, Shl(1, i - (q.dst - q.src))];
    var word := Pack([p, q], values);
    assert [p, q][..1] == [p];
    assert [p][..0] == [];
    assert word == Or(Pack([p], values), Place(q, values[1]));
    OrBit(Pack([p], values), Place(q, values[1]), i);
    PlaceBit(q, values[1], i);
    ShlBit(1, i - (q.dst - q.src), i - (q.dst - q.src));
    var back := Unpack([p, q], word, 0);
    assert back == Unpack([p], word, 0) == Or(0, Fetch(p, word));
    FetchBit(p, word, i - (p.dst - p.src));
    assert Bit(back, i - (p.dst - p.src));
    ZeroBit(i - (p.dst - p.src));
    assert back != And(values[0], Carried([p, q], 0));
  }

  // The layouts of the chain module's fault registers.

  /** Reception faults: nine fields, the header status being eight bits wide. */
  const CHAIN_ERR: seq<Piece> := [
    Piece(0, 0, 0, 1), Piece(1, 0, 1, 1), Piece(2, 0, 2, 1), Piece(3, 0, 3, 1), Piece(4, 0, 4, 8),
    Piece(5, 0, 12, 1), Piece(6, 0, 13, 1), Piece(7, 0, 16, 1), Piece(8, 0, 17, 1)]

  /** Protocol faults: eleven one-bit fields with a gap at bits 9 to 11. */
  const CHAIN_ERR_PROT: seq<Piece> := [
    Piece(0, 0, 0, 1), Piece(1, 0, 1, 1), Piece(2, 0, 2, 1), Piece(3, 0, 3, 1), Piece(4, 0, 4, 1), Piece(5, 0, 5, 1),
    Piece(6, 0, 6, 1), Piece(7, 0, 7, 1), Piece(8, 0, 8, 1), Piece(9, 0, 12, 1), Piece(10, 0, 13, 1)]

  /** Stream stalls: six one-bit fields, then event (value 6) and command (value 7), whose low
      bits sit at 6 and 7 and whose high bits sit at 8 and 9. */
  const CHAIN_ERR_STIF: seq<Piece> := [
    Piece(0, 0, 0, 1), Piece(1, 0, 1, 1), Piece(2, 0, 2, 1), Piece(3, 0, 3, 1), Piece(4, 0, 4, 1), Piece(5, 0, 5, 1),
    Piece(6, 0, 6, 1), Piece(7, 0, 7, 1), Piece(6, 1, 8, 1), Piece(7, 1, 9, 1)]

  lemma CarriedStep(layout: seq<Piece>, n: nat, v: nat)
    requires n < |layout|
    ensures Carried(layout[..n + 1], v)
            == if layout[n].value == v
               then Or(Carried(layout[..n], v), Shl(Mask(layout[n].width), layout[n].src))
               else Carried(layout[..n], v)
  {
    assert layout[..n + 1][..n] == layout[..n];
  }

  /** A value with a single piece, read from its lowest bits, is carried on exactly the width
      of that piece. */
  lemma {:induction false} CarriedOnce(layout: seq<Piece>, k: nat, prefix: nat)
    requires k < |layout| && prefix <= |layout| && layout[k].src == 0
    requires forall j | 0 <= j < |layout| && j != k :: layout[j].value != layout[k].value
    ensures Carried(layout[..prefix], layout[k].value) == if k < prefix then Mask(layout[k].width) else 0
  {
    if prefix > 0 {
      CarriedOnce(layout, k, prefix - 1);
      CarriedStep(layout, prefix - 1, layout[k].value);
    }
  }

  /** Read-back of a value with a single piece. */
  lemma RoundTripOnce(layout: seq<Piece>, values: seq<nat>, k: nat)
    requires LayoutOk(layout, |values|) && Disjoint(layout)
    requires k < |layout| && layout[k].src == 0
    requires forall j | 0 <= j < |layout| && j != k :: layout[j].value != layout[k].value
    ensures Unpack(layout, Pack(layout, values), layout[k].value)
            == And(values[layout[k].value], Mask(layout[k].width))
  {
    RoundTrip(layout, values, layout[k].value);
    CarriedOnce(layout, k, |layout|);
    assert layout[..|layout|] == layout;
  }

  /** The reception-fault word returns eight bits of the header status and one bit of every
      other field. */
  lemma FaultWordRoundTrip(values: seq<nat>, v: nat)
    requires |values| == 9 && v < 9
    ensures Unpack(CHAIN_ERR, Pack(CHAIN_ERR, values), v) == And(values[v], if v == 4 then 0xFF else 1)
  {
    assert Mask(1) == 1 && Mask(8) == 0xFF;
    RoundTripOnce(CHAIN_ERR, values, v);
  }

  /** The protocol-fault word returns one bit of every field. */
  lemma ProtocolWordRoundTrip(values: seq<nat>, v: nat)
    requires |values| == 11 && v < 11
    ensures Unpack(CHAIN_ERR_PROT, Pack(CHAIN_ERR_PROT, values), v) == And(values[v], 1)
  {
    assert Mask(1) == 1;
    RoundTripOnce(CHAIN_ERR_PROT, values, v);
  }

  lemma StallCarried(v: nat)
    requires v < 8
    ensures Carried(CHAIN_ERR_STIF, v) == if v < 6 then 1 else 3
  {
    var low := CHAIN_ERR_STIF[..8];
    CarriedOnce(low, v, 8);
    assert low[..8] == low;
    assert CHAIN_ERR_STIF[..10] == CHAIN_ERR_STIF;
    CarriedStep(CHAIN_ERR_STIF, 8, v);
    CarriedStep(CHAIN_ERR_STIF, 9, v);
    assert Mask(1) == 1 && Shl(1, 1) == 2 && Or(1, 2) == 3;
  }

  /** The stall word returns both bits of event and command, and one bit of everything else. */
  lemma StallWordRoundTrip(values: seq<nat>, v: nat)
    requires |values| == 8 && v < 8
    ensures Unpack(CHAIN_ERR_STIF, Pack(CHAIN_ERR_STIF, values), v) == And(values[v], if v < 6 then 1 else 3)
  {
    RoundTrip(CHAIN_ERR_STIF, values, v);
    StallCarried(v);
  }
}
