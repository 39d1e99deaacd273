/** Splitting code into instructions by the mask that marks where each one starts. */
module Decoder {
  import opened Instructions
  import opened CfgBuild

  predicate Marked(mask: seq<bv8>, pc: nat) {
    pc / 8 < |mask| && (mask[pc / 8] >> (pc % 8)) & 1 == 1
  }

  /** The power of two in place k of a byte, if the address is marked. */
  function Place(mask: seq<bv8>, pc: nat, power: nat): nat { if Marked(mask, pc) then power else 0 }

  /** A mask byte is the sum of the powers of two in the places of its marks, the first address lowest. */
  lemma MaskBytes(mask: seq<bv8>, i: nat)
    requires i < |mask|
    ensures mask[i] as nat ==
      Place(mask, 8 * i, 1) + Place(mask, 8 * i + 1, 2) + Place(mask, 8 * i + 2, 4) + Place(mask, 8 * i + 3, 8) +
      Place(mask, 8 * i + 4, 16) + Place(mask, 8 * i + 5, 32) + Place(mask, 8 * i + 6, 64) + Place(mask, 8 * i + 7, 128)
  {
  }

  /** No instruction starts strictly between the two addresses. */
  ghost predicate Unmarked(mask: seq<bv8>, lo: nat, hi: nat) {
    forall pc :: lo <= pc < hi ==> !Marked(mask, pc)
  }

  /** Up to the next mark, or the end of the code. */
  method FindInstructionLength(mask: seq<bv8>, start: nat, codeLen: nat) returns (len: nat)
    requires start < codeLen <= 8 * |mask|
    ensures 0 < len <= codeLen - start && Unmarked(mask, start + 1, start + len)
    ensures start + len < codeLen ==> Marked(mask, start + len)
  {
    var pc := start + 1;
    while pc < codeLen
      invariant start < pc <= codeLen && Unmarked(mask, start + 1, pc)
    {
      if Marked(mask, pc) { return pc - start; }
      pc := pc + 1;
    }
    len := codeLen - start;
  }

  /** The pieces follow each other from `from` to `to` without gap or overlap, each starting at a
      mark and holding no other. */
  ghost predicate Tiles(mask: seq<bv8>, pieces: seq<(nat, nat)>, from: nat, to: nat) {
    if pieces == [] then from == to
    else
      var (pc, len) := pieces[|pieces| - 1];
      len > 0 && to == pc + len && Marked(mask, pc) && Unmarked(mask, pc + 1, to) &&
      Tiles(mask, pieces[..|pieces| - 1], from, pc)
  }

  /** The addresses and lengths of the instructions in the code. */
  method Split(mask: seq<bv8>, codeLen: nat) returns (pieces: seq<(nat, nat)>, ghost first: nat)
    requires codeLen <= 8 * |mask|
    ensures first <= codeLen && Unmarked(mask, 0, first) && Tiles(mask, pieces, first, codeLen)
    ensures forall pc: nat :: pc < codeLen ==>
      (Marked(mask, pc) <==> exists i :: 0 <= i < |pieces| && pieces[i].0 == pc)
  {
    pieces, first := [], 0;
    var pc := 0;
    while pc < codeLen
      invariant first <= pc <= codeLen && Unmarked(mask, 0, first) && Tiles(mask, pieces, first, pc)
      invariant pieces != [] && pc < codeLen ==> Marked(mask, pc)
    {
      if !Marked(mask, pc) {
        pc, first := pc + 1, pc + 1;
        continue;
      }
      var len := FindInstructionLength(mask, pc, codeLen);
      assert (pieces + [(pc, len)])[..|pieces|] == pieces;
      pieces := pieces + [(pc, len)];
      pc := pc + len;
    }
    TilesAreMarks(mask, pieces, first, codeLen);
  }

  /** Tiling means: in order, one piece per mark, from the first mark on. */
  lemma {:induction false} TilesAreMarks(mask: seq<bv8>, pieces: seq<(nat, nat)>, from: nat, to: nat)
    requires Tiles(mask, pieces, from, to)
    ensures from <= to
    ensures forall i, j :: 0 <= i < j < |pieces| ==> pieces[i].0 + pieces[i].1 <= pieces[j].0
    ensures forall i :: 0 <= i < |pieces| ==> from <= pieces[i].0 && pieces[i].0 + pieces[i].1 <= to
    ensures forall pc :: from <= pc < to ==> (Marked(mask, pc) <==> exists i :: 0 <= i < |pieces| && pieces[i].0 == pc)
  {
    if pieces != [] {
      var n := |pieces| - 1;
      var (pc, len) := pieces[n];
      TilesAreMarks(mask, pieces[..n], from, pc);
      assert forall i :: 0 <= i < n ==> pieces[..n][i] == pieces[i];
      forall x | from <= x < to ensures Marked(mask, x) <==> exists i :: 0 <= i < |pieces| && pieces[i].0 == x {
        if x < pc {
          if Marked(mask, x) {
            var i :| 0 <= i < n && pieces[..n][i].0 == x;
            assert pieces[i].0 == x;
          }
        } else {
          assert Marked(mask, x) ==> x == pc;
          if x == pc { assert pieces[n].0 == x; }
        }
      }
    }
  }

  /** What the bytes of a piece mean is left to `decode`. */
  function Sliced(code: seq<bv8>, pieces: seq<(nat, nat)>, decode: seq<bv8> -> Shape): (r: seq<(nat, Shape)>)
    requires forall i :: 0 <= i < |pieces| ==> pieces[i].0 + pieces[i].1 <= |code|
    ensures |r| == |pieces| && forall i :: 0 <= i < |r| ==> r[i].0 == pieces[i].0
  {
    seq(|pieces|, i requires 0 <= i < |pieces| => (pieces[i].0, decode(code[pieces[i].0..pieces[i].0 + pieces[i].1])))
  }

  ghost function Bytes(code: seq<bv8>, pieces: seq<(nat, nat)>): seq<bv8>
    requires forall i :: 0 <= i < |pieces| ==> pieces[i].0 + pieces[i].1 <= |code|
  {
    if pieces == [] then []
    else
      var (pc, len) := pieces[|pieces| - 1];
      Bytes(code, pieces[..|pieces| - 1]) + code[pc..pc + len]
  }

  lemma {:induction false} TilesCover(mask: seq<bv8>, code: seq<bv8>, pieces: seq<(nat, nat)>, from: nat, to: nat)
    requires Tiles(mask, pieces, from, to) && to <= |code|
    ensures from <= to && forall i :: 0 <= i < |pieces| ==> pieces[i].0 + pieces[i].1 <= |code|
    ensures Bytes(code, pieces) == code[from..to]
  {
    TilesAreMarks(mask, pieces, from, to);
    if pieces != [] {
      var n := |pieces| - 1;
      TilesCover(mask, code, pieces[..n], from, pieces[n].0);
      assert code[from..to] == code[from..pieces[n].0] + code[pieces[n].0..to];
    }
  }

  /** The instruction addresses are the marks inside the code, the pieces make up the code from the
      first mark on, and the result is a program the graph can be built from. */
  method Decode(code: seq<bv8>, mask: seq<bv8>, decode: seq<bv8> -> Shape)
    returns (p: Program, ghost pieces: seq<(nat, nat)>, ghost first: nat)
    requires |code| <= 8 * |mask|
    ensures Decoded(p) && p.codeLen == |code|
    ensures forall pc: nat :: pc < |code| ==>
      (Marked(mask, pc) <==> exists i :: 0 <= i < |p.instrs| && p.instrs[i].0 == pc)
    ensures first <= |code| && Unmarked(mask, 0, first)
    ensures forall i :: 0 <= i < |pieces| ==> pieces[i].0 + pieces[i].1 <= |code|
    ensures Bytes(code, pieces) == code[first..] && p.instrs == Sliced(code, pieces, decode)
  {
    var split;
    split, first := Split(mask, |code|);
    pieces := split;
    TilesAreMarks(mask, split, first, |code|);
    TilesCover(mask, code, split, first, |code|);
    TilesNonempty(mask, split, first, |code|);
    p := Program(Sliced(code, split, decode), |code|);
    assert code[first..|code|] == code[first..];
  }

  lemma {:induction false} TilesNonempty(mask: seq<bv8>, pieces: seq<(nat, nat)>, from: nat, to: nat)
    requires Tiles(mask, pieces, from, to)
    ensures forall i :: 0 <= i < |pieces| ==> pieces[i].1 > 0
  {
    if pieces != [] {
      var n := |pieces| - 1;
      TilesNonempty(mask, pieces[..n], from, pieces[n].0);
      assert forall i :: 0 <= i < n ==> pieces[..n][i] == pieces[i];
    }
  }
}
