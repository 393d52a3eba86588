/** What the error correction of a symbol buys: codewords may be damaged, in every block as many as
    half its error-correction codewords, and the data is still determined. */
module QrDamage {
  import opened Gf256
  import opened QrTables
  import opened QrInterleave
  import RS = ReedSolomon
  import RD = ReedSolomonDistance

  /** Block `j` as a reader gathers it. */
  function ReadBlock(lay: Layout, codewords: seq<Byte>, j: nat): (b: seq<Byte>)
    ensures |b| == DataLen(lay, j) + lay.ecc
  {
    GatherData(lay, codewords, j) + GatherEcc(lay, codewords, j)
  }

  /** No block of any version and level is longer than the code allows. */
  lemma BlocksAreShort(version: nat, ecl: Level, j: nat)
    requires IsVersion(version)
    ensures DataLen(LayoutOf(version, ecl), j) + LayoutOf(version, ecl).ecc <= 255
  {
    hide RawModules, Table;
    var c, raw := Table(version, ecl), RawCodewords(version);
    assert Usable(c);
    LayoutValid(version, ecl);
    QuotientBelow(raw, c.blocks, 255);
  }

  lemma QuotientBelow(n: nat, d: nat, q: nat)
    requires 0 < d && n < d * q
    ensures n / d < q
  {
    if n / d >= q {
      MulMonotone(d, q, n / d);
    }
  }

  /** In every block the two streams differ in at most half as many places as it has error-correction
      codewords. */
  ghost predicate LightlyDamaged(lay: Layout, received: seq<Byte>, sent: seq<Byte>) {
    forall j: nat | j < lay.blocks ::
      2 * |RD.Differences(ReadBlock(lay, received, j), ReadBlock(lay, sent, j))| <= lay.ecc
  }

  lemma BlockSurvives(lay: Layout, received: seq<Byte>, data: seq<Byte>, data': seq<Byte>, j: nat)
    requires ValidLayout(lay) && |data| == |data'| == Offset(lay, lay.blocks) && j < lay.blocks
    requires DataLen(lay, j) + lay.ecc <= 255
    requires LightlyDamaged(lay, received, Interleaved(lay, data))
    requires LightlyDamaged(lay, received, Interleaved(lay, data'))
    ensures GatherData(lay, Interleaved(lay, data), j) == GatherData(lay, Interleaved(lay, data'), j)
  {
    hide Interleaved, Offset, RS.Eval, RS.Root, GatherData, GatherEcc;
    var a, b := ReadBlock(lay, Interleaved(lay, data), j), ReadBlock(lay, Interleaved(lay, data'), j);
    forall r: nat | r < lay.ecc
      ensures RS.Eval(a, RS.Root(r)) == 0 && RS.Eval(b, RS.Root(r)) == 0
    {
      GatheredBlockIsCodeword(lay, data, j, r);
      GatheredBlockIsCodeword(lay, data', j, r);
    }
    RD.DamageIsCorrectable(ReadBlock(lay, received, j), a, b, lay.ecc);
    var n := DataLen(lay, j);
    assert a[..n] == GatherData(lay, Interleaved(lay, data), j);
    assert b[..n] == GatherData(lay, Interleaved(lay, data'), j);
  }

  lemma {:induction false} SameGathering(lay: Layout, codewords: seq<Byte>, codewords': seq<Byte>, n: nat)
    requires forall j: nat | j < n :: GatherData(lay, codewords, j) == GatherData(lay, codewords', j)
    ensures Deinterleaved(lay, codewords, n) == Deinterleaved(lay, codewords', n)
  {
    hide GatherData;
    if n > 0 {
      SameGathering(lay, codewords, codewords', n - 1);
    }
  }

  /** Whatever stream a scanner reads off a symbol of any version and level, at most one content can
      have been encoded if no block is damaged in more than half as many places as it has
      error-correction codewords. */
  lemma DamagedSymbolDetermines(version: nat, ecl: Level, received: seq<Byte>, data: seq<Byte>, data': seq<Byte>)
    requires IsVersion(version) && |data| == |data'| == DataCodewords(version, ecl)
    ensures var lay := LayoutOf(version, ecl);
            && ValidLayout(lay) && Offset(lay, lay.blocks) == DataCodewords(version, ecl)
            && (LightlyDamaged(lay, received, Interleaved(lay, data)) && LightlyDamaged(lay, received, Interleaved(lay, data'))
                ==> data == data')
  {
    var lay := LayoutOf(version, ecl);
    LayoutValid(version, ecl);
    LayoutCoversData(version, ecl);
    forall j: nat
      ensures DataLen(lay, j) + lay.ecc <= 255
    {
      BlocksAreShort(version, ecl, j);
    }
    hide LayoutOf, Interleaved, Offset, LightlyDamaged, DataCodewords, GatherData, DataLen;
    if LightlyDamaged(lay, received, Interleaved(lay, data)) && LightlyDamaged(lay, received, Interleaved(lay, data')) {
      forall j: nat | j < lay.blocks
        ensures GatherData(lay, Interleaved(lay, data), j) == GatherData(lay, Interleaved(lay, data'), j)
      {
        BlockSurvives(lay, received, data, data', j);
      }
      SameGathering(lay, Interleaved(lay, data), Interleaved(lay, data'), lay.blocks);
      DeinterleaveInterleaved(lay, data);
      DeinterleaveInterleaved(lay, data');
    }
  }
}
