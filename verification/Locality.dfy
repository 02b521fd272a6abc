/** A block of residuals depends only on the bits it consumes, although the
    decoder always looks 32 bits ahead. */
module Locality {
  import opened Words
  import opened Bits
  import opened Golomb
  import opened Residuals

  lemma {:induction false} OnesAgree(s: seq<byte>, t: seq<byte>, e: nat, p: nat, cap: nat)
    requires Agree(s, t, e)
    requires (Ones(s, p, cap) == cap && p + cap <= e) || p + Ones(s, p, cap) < e
    ensures Ones(t, p, cap) == Ones(s, p, cap)
    decreases cap
  {
    if cap > 0 && BitAt(s, p) != 0 { OnesAgree(s, t, e, p + 1, cap - 1); }
  }

  /** The k-bit read of a short remainder looks at one bit beyond the symbol;
      its value does not matter. */
  lemma RemainderAgrees(s: seq<byte>, t: seq<byte>, e: nat, p: nat, k: nat)
    requires Agree(s, t, e) && k >= 1
    requires p + k <= e || (Slice(s, p, k) < 2 && p + k - 1 <= e)
    ensures Slice(s, p, k) < 2 ==> Slice(t, p, k) < 2
    ensures Slice(s, p, k) >= 2 ==> Slice(t, p, k) == Slice(s, p, k)
  {
    if p + k <= e {
      SliceAgree(s, t, e, p, k);
    } else {
      SliceAgree(s, t, e, p, k - 1);
    }
  }

  lemma SymbolAgrees(s: seq<byte>, t: seq<byte>, e: nat, p: nat, k: nat, maxbits: nat)
    requires Agree(s, t, e) && k >= 1 && Symbol(s, p, k, maxbits).end <= e
    ensures Symbol(t, p, k, maxbits) == Symbol(s, p, k, maxbits)
  {
    hide Ones, Slice, Times, Mask, BitAt, Agree;
    var pre := Ones(s, p, MAX_PREFIX);
    OnesAgree(s, t, e, p, MAX_PREFIX);
    if pre == MAX_PREFIX {
      SliceAgree(s, t, e, p + MAX_PREFIX, maxbits);
    } else {
      RemainderAgrees(s, t, e, p + pre + 1, k);
    }
  }

  lemma TurnAgrees(s: seq<byte>, t: seq<byte>, e: nat, ag: Params, maxSize: nat, p: nat, left: nat,
                   mb: nat, zmode: nat)
    requires Agree(s, t, e) && e <= 8 * |t|
    requires Legal(ag) && mb <= MEAN_BOUND && zmode <= 1 && left > 0
    requires OneTurn(s, ag, maxSize, p, left, mb, zmode).Turn?
    requires OneTurn(s, ag, maxSize, p, left, mb, zmode).end <= e
    ensures OneTurn(t, ag, maxSize, p, left, mb, zmode) == OneTurn(s, ag, maxSize, p, left, mb, zmode)
  {
    hide Symbol, NextMean, ParamK, RunK, Agree, Unzig;
    ParamRange(mb, ag.kb);
    SymbolAdvances(s, p, ParamK(mb, ag.kb), maxSize);
    var h := HeadAt(s, ag, maxSize, p, mb, zmode);
    if h.mb < 128 && left > 1 {
      RunRange(h.mb);
      SymbolAgrees(s, t, e, h.end, RunK(h.mb), 16);
    }
    SymbolAgrees(s, t, e, p, ParamK(mb, ag.kb), maxSize);
  }

  lemma SymbolAdvances(s: seq<byte>, p: nat, k: nat, maxbits: nat)
    requires k >= 1
    ensures Symbol(s, p, k, maxbits).end > p
  {
  }

  lemma {:induction false} DecompAgrees(s: seq<byte>, t: seq<byte>, e: nat, ag: Params, maxSize: nat,
                                        p: nat, left: nat, mb: nat, zmode: nat)
    requires Agree(s, t, e) && e <= 8 * |t|
    requires Legal(ag) && mb <= MEAN_BOUND && zmode <= 1
    requires Decomp(s, ag, maxSize, p, left, mb, zmode).Block?
    requires Decomp(s, ag, maxSize, p, left, mb, zmode).end <= e
    ensures Decomp(t, ag, maxSize, p, left, mb, zmode) == Decomp(s, ag, maxSize, p, left, mb, zmode)
    decreases left
  {
    hide OneTurn, Agree;
    if left > 0 {
      var turn := OneTurn(s, ag, maxSize, p, left, mb, zmode);
      TurnAgrees(s, t, e, ag, maxSize, p, left, mb, zmode);
      DecompAgrees(s, t, e, ag, maxSize, turn.end, left - |turn.xs|, turn.mb, turn.zmode);
    }
  }
}
