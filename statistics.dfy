/**
 * The module-level helpers of the statistics script: a one-hot decoder, the
 * secondary-structure extraction built on it, and the grouping of angle pairs
 * by secondary-structure label.
 */
module Statistics {
  import opened Wrappers
  import opened Geometry
  import opened FeatureVector
  import PyList

  // ---------------------------------------------------------------------------
  // one_hot_to_string and extract_ss

  /** Where the block at `i` ends: `vector[i:i+categories]` stops at the end of the vector. */
  function BlockEnd(v: seq<real>, c: nat, i: nat): (hi: nat)
    requires i < |v|
    ensures i <= hi <= |v| && hi - i <= c
    ensures hi == |v| || hi == i + c
  {
    if i + c < |v| then i + c else |v|
  }

  /**
   * The state of `one_hot_to_string` at position `i` with `acc` decoded so far:
   * the block at `i` holds the next `|codes|` entries (fewer at the end) and
   * contributes `codes[k]` for the first position k holding 1.0; a block
   * without 1.0 makes `list.index` raise.
   */
  function OneHotFrom(v: seq<real>, codes: string, i: nat, acc: string): Result<string>
    decreases |v| - i
  {
    if i >= |v| then Ok(acc)
    else
      var block := v[i..BlockEnd(v, |codes|, i)];
      if 1.0 !in block then Err(ValueNotFound)
      else OneHotFrom(v, codes, i + |codes|, acc + [codes[PyList.IndexOf(block, 1.0)]])
  }

  /** What `one_hot_to_string(v, codes)` returns. */
  function OneHotDecode(v: seq<real>, codes: string): Result<string>
  {
    OneHotFrom(v, codes, 0, "")
  }

  /** The blocks of `c` consecutive entries read from position `i` on, the last one possibly shorter. */
  function BlocksFrom(v: seq<real>, c: nat, i: nat): seq<seq<real>>
    requires c > 0
    decreases |v| - i
  {
    if i >= |v| then [] else [v[i..BlockEnd(v, c, i)]] + BlocksFrom(v, c, i + c)
  }

  /** The blocks `one_hot_to_string` reads from a vector. */
  function Blocks(v: seq<real>, c: nat): seq<seq<real>>
    requires c > 0
  {
    BlocksFrom(v, c, 0)
  }

  function Flatten(blocks: seq<seq<real>>): seq<real>
  {
    if blocks == [] then [] else blocks[0] + Flatten(blocks[1..])
  }

  /** The blocks from `i` partition the rest of the vector in order; none is empty, and all but the last are full. */
  lemma {:induction false} BlocksFromPartition(v: seq<real>, c: nat, i: nat)
    requires c > 0 && i <= |v|
    ensures Flatten(BlocksFrom(v, c, i)) == v[i..]
    ensures forall j :: 0 <= j < |BlocksFrom(v, c, i)| ==> 0 < |BlocksFrom(v, c, i)[j]| <= c
    ensures forall j :: 0 <= j < |BlocksFrom(v, c, i)| - 1 ==> |BlocksFrom(v, c, i)[j]| == c
    decreases |v| - i
  {
    if i < |v| {
      var blocks, block := BlocksFrom(v, c, i), v[i..BlockEnd(v, c, i)];
      if i + c < |v| {
        var rest := BlocksFrom(v, c, i + c);
        BlocksFromPartition(v, c, i + c);
        assert blocks == [block] + rest;
        assert v[i..] == block + v[i + c..];
        assert forall j :: 0 < j < |blocks| ==> blocks[j] == rest[j - 1];
      } else {
        assert blocks == [block];
      }
    }
  }

  /** The blocks partition the vector in order; none is empty, and every block but the last is full. */
  lemma BlocksPartition(v: seq<real>, c: nat)
    requires c > 0
    ensures Flatten(Blocks(v, c)) == v
    ensures forall j :: 0 <= j < |Blocks(v, c)| ==> 0 < |Blocks(v, c)[j]| <= c
    ensures forall j :: 0 <= j < |Blocks(v, c)| - 1 ==> |Blocks(v, c)[j]| == c
  {
    BlocksFromPartition(v, c, 0);
    assert v[0..] == v;
  }

  /** When exactly m full blocks remain after `i`, block j is the entries [i + c*j, i + c*j + c). */
  lemma {:induction false} BlockAt(v: seq<real>, c: nat, i: nat, m: nat, j: nat)
    requires c > 0 && i <= |v| && |v| - i == c * m && j < m
    ensures |BlocksFrom(v, c, i)| == m
    ensures i + c * j + c <= |v| && BlocksFrom(v, c, i)[j] == v[i + c * j..i + c * j + c]
    decreases m
  {
    var rest := BlocksFrom(v, c, i + c);
    assert |v| - (i + c) == c * (m - 1);
    assert BlocksFrom(v, c, i) == [v[i..i + c]] + rest;
    if m > 1 {
      BlockAt(v, c, i + c, m - 1, if j > 0 then j - 1 else 0);
      if j > 0 {
        assert c * j == c * (j - 1) + c;
        assert BlocksFrom(v, c, i)[j] == rest[j - 1];
      }
    } else {
      assert rest == [];
    }
  }

  /** Every block holds a 1.0. */
  predicate AllHoldOne(blocks: seq<seq<real>>)
  {
    forall j :: 0 <= j < |blocks| ==> 1.0 in blocks[j]
  }

  /** `t` is the code at the first 1.0 of each block, one character per block. */
  predicate DecodesBlocks(t: string, blocks: seq<seq<real>>, codes: string)
  {
    && AllHoldOne(blocks)
    && |t| == |blocks|
    && forall j :: 0 <= j < |blocks| ==>
         PyList.IndexOf(blocks[j], 1.0) < |codes| && t[j] == codes[PyList.IndexOf(blocks[j], 1.0)]
  }

  lemma ConsHoldOne(b: seq<real>, rest: seq<seq<real>>)
    ensures AllHoldOne([b] + rest) <==> 1.0 in b && AllHoldOne(rest)
  {
    var blocks := [b] + rest;
    if AllHoldOne(blocks) {
      assert 1.0 in blocks[0];
      forall j | 0 <= j < |rest|
        ensures 1.0 in rest[j]
      {
        assert rest[j] == blocks[j + 1];
      }
    }
    if 1.0 in b && AllHoldOne(rest) {
      forall j | 0 <= j < |blocks|
        ensures 1.0 in blocks[j]
      {
        if j > 0 {
          assert blocks[j] == rest[j - 1];
        }
      }
    }
  }

  lemma ConsDecodes(b: seq<real>, rest: seq<seq<real>>, t: string, codes: string)
    requires |b| <= |codes| && 1.0 in b
    requires DecodesBlocks(t, rest, codes)
    ensures DecodesBlocks([codes[PyList.IndexOf(b, 1.0)]] + t, [b] + rest, codes)
  {
    ConsHoldOne(b, rest);
    var blocks, u := [b] + rest, [codes[PyList.IndexOf(b, 1.0)]] + t;
    forall j | 0 < j < |blocks|
      ensures u[j] == codes[PyList.IndexOf(blocks[j], 1.0)]
    {
      assert blocks[j] == rest[j - 1];
      assert u[j] == t[j - 1];
    }
  }

  /** From position `i`, decoding succeeds exactly when every remaining block holds a 1.0. */
  lemma {:induction false} OneHotFromSucceeds(v: seq<real>, codes: string, i: nat, acc: string)
    requires |codes| > 0
    ensures OneHotFrom(v, codes, i, acc).Ok? <==> AllHoldOne(BlocksFrom(v, |codes|, i))
    decreases |v| - i
  {
    if i < |v| {
      var block := v[i..BlockEnd(v, |codes|, i)];
      ConsHoldOne(block, BlocksFrom(v, |codes|, i + |codes|));
      if 1.0 in block {
        OneHotFromSucceeds(v, codes, i + |codes|, acc + [codes[PyList.IndexOf(block, 1.0)]]);
      }
    }
  }

  /** From position `i`, a successful decoding extends `acc` by one code per remaining block. */
  lemma {:induction false} OneHotFromDecodes(v: seq<real>, codes: string, i: nat, acc: string)
    requires |codes| > 0 && OneHotFrom(v, codes, i, acc).Ok?
    ensures var r := OneHotFrom(v, codes, i, acc).value;
      |acc| <= |r| && r[..|acc|] == acc && DecodesBlocks(r[|acc|..], BlocksFrom(v, |codes|, i), codes)
    decreases |v| - i
  {
    var r := OneHotFrom(v, codes, i, acc).value;
    if i >= |v| {
      assert r[|acc|..] == [];
    } else {
      var block := v[i..BlockEnd(v, |codes|, i)];
      var ch := codes[PyList.IndexOf(block, 1.0)];
      var acc' := acc + [ch];
      OneHotFromDecodes(v, codes, i + |codes|, acc');
      var t := r[|acc'|..];
      ConsDecodes(block, BlocksFrom(v, |codes|, i + |codes|), t, codes);
      assert r[..|acc'|] == acc';
      assert r[..|acc|] == acc;
      assert r[|acc|..] == [ch] + t;
    }
  }

  /**
   * `one_hot_to_string` with at least one code: it succeeds exactly when every
   * block of `|codes|` entries holds a 1.0, and then emits one character per
   * block, namely the code at the first 1.0 of that block.
   */
  lemma OneHotPerBlock(v: seq<real>, codes: string)
    requires |codes| > 0
    ensures var r, blocks := OneHotDecode(v, codes), Blocks(v, |codes|);
      && (r.Ok? <==> AllHoldOne(blocks))
      && (r.Ok? ==> DecodesBlocks(r.value, blocks, codes))
  {
    OneHotFromSucceeds(v, codes, 0, "");
    var r := OneHotDecode(v, codes);
    if r.Ok? {
      OneHotFromDecodes(v, codes, 0, "");
      assert r.value[0..] == r.value;
    }
  }

  /** Every decoded character is one of the codes. */
  lemma OneHotUsesCodes(v: seq<real>, codes: string)
    ensures OneHotDecode(v, codes).Ok? ==> forall k :: 0 <= k < |OneHotDecode(v, codes).value| ==> OneHotDecode(v, codes).value[k] in codes
  {
    if |codes| > 0 {
      OneHotPerBlock(v, codes);
    }
  }

  /** With no codes, only the empty vector decodes (to the empty string). */
  lemma OneHotNoCodes(v: seq<real>)
    ensures OneHotDecode(v, "") == (if v == [] then Ok("") else Err(ValueNotFound))
  {
  }

  /** `one_hot_to_string(vector, codes)`: the `while` loop that walks the blocks. */
  method OneHotToString(v: seq<real>, codes: string) returns (r: Result<string>)
    ensures r == OneHotDecode(v, codes)
  {
    var s := "";
    var categories := |codes|;
    var i := 0;
    while i < |v|
      invariant OneHotDecode(v, codes) == OneHotFrom(v, codes, i, s)
      decreases |v| - i
    {
      var block := v[i..BlockEnd(v, categories, i)];
      if 1.0 !in block {
        return Err(ValueNotFound);
      }
      var index := PyList.IndexOf(block, 1.0);
      s := s + [codes[index]];
      i := i + categories;
    }
    return Ok(s);
  }

  /** The secondary-structure codes of the label vector, in one-hot order. */
  const SsLetters: string := "HEC"

  /**
   * `extract_ss(vector)`: with m = len div 23, the one-hot part of the label
   * vector starts at 20m (20 amino-acid slots per residue come first) and is
   * decoded with the codes "HEC".
   */
  function ExtractSs(v: seq<real>): (r: Result<string>)
    ensures r.Ok? ==> forall k :: 0 <= k < |r.value| ==> r.value[k] in "HEC"
  {
    var m := |v| / 23;
    OneHotUsesCodes(v[20 * m..], SsLetters);
    OneHotDecode(v[20 * m..], SsLetters)
  }

  /** Block j of the one-hot part of a label vector of 23m entries. */
  function SsBlock(v: seq<real>, m: nat, j: nat): seq<real>
    requires |v| == 23 * m && j < m
  {
    v[20 * m + 3 * j..20 * m + 3 * j + 3]
  }

  /** A vector of 3m entries splits into the m triples [3j, 3j + 3). */
  lemma {:induction false} TripleBlocks(w: seq<real>, m: nat)
    requires |w| == 3 * m
    ensures |Blocks(w, 3)| == m
    ensures forall j :: 0 <= j < m ==> Blocks(w, 3)[j] == w[3 * j..3 * j + 3]
  {
    if m == 0 {
      assert Blocks(w, 3) == [];
    } else {
      BlockAt(w, 3, 0, m, 0);
    }
    forall j | 0 <= j < m
      ensures |Blocks(w, 3)| == m && Blocks(w, 3)[j] == w[3 * j..3 * j + 3]
    {
      BlockAt(w, 3, 0, m, j);
    }
  }

  /** For 23m entries, `extract_ss` decodes the m blocks `SsBlock(v, m, j)`. */
  lemma ExtractSsBlocks(v: seq<real>, m: nat)
    requires |v| == 23 * m
    ensures |v| / 23 == m
    ensures var blocks := Blocks(v[20 * m..], 3);
      && ExtractSs(v) == OneHotDecode(v[20 * m..], SsLetters)
      && |blocks| == m
      && forall j :: 0 <= j < m ==> blocks[j] == SsBlock(v, m, j)
  {
    var w := v[20 * m..];
    TripleBlocks(w, m);
    forall j | 0 <= j < m
      ensures w[3 * j..3 * j + 3] == SsBlock(v, m, j)
    {
      PyList.SliceOfSuffix(v, 20 * m, 3 * j, 3 * j + 3);
    }
  }

  /**
   * For a label vector of 23m entries, `extract_ss` reads m blocks of three
   * after the first 20m entries and succeeds exactly when each holds a 1.0.
   */
  lemma ExtractSsSucceeds(v: seq<real>, m: nat)
    requires |v| == 23 * m
    ensures ExtractSs(v).Ok? <==> forall j :: 0 <= j < m ==> 1.0 in SsBlock(v, m, j)
  {
    ExtractSsBlocks(v, m);
    OneHotPerBlock(v[20 * m..], SsLetters);
    var blocks := Blocks(v[20 * m..], 3);
    assert AllHoldOne(blocks) <==> forall j :: 0 <= j < m ==> 1.0 in SsBlock(v, m, j);
  }

  /** On 23m entries whose blocks each hold a 1.0, `extract_ss` returns m letters, one per block. */
  lemma ExtractSsLetters(v: seq<real>, m: nat)
    requires |v| == 23 * m
    requires forall j :: 0 <= j < m ==> 1.0 in SsBlock(v, m, j)
    ensures ExtractSs(v).Ok? && |ExtractSs(v).value| == m
    ensures forall j :: 0 <= j < m ==>
      ExtractSs(v).value[j] == SsLetters[PyList.IndexOf(SsBlock(v, m, j), 1.0)]
  {
    ExtractSsSucceeds(v, m);
    ExtractSsBlocks(v, m);
    OneHotPerBlock(v[20 * m..], SsLetters);
  }

  // ---------------------------------------------------------------------------
  // angles_distribution and hec_distribution

  /** One `[ss, alpha, theta]` triple of `angles_distribution`. */
  datatype AngleRecord = AngleRecord(ss: char, alpha: real, theta: real)

  /** The `[alpha, theta]` pair `hec_distribution` keeps of a record. */
  function Pair(x: AngleRecord): (real, real)
  {
    (x.alpha, x.theta)
  }

  /**
   * `angles_distribution(ss, output)`: `zip` of the labels with the bend and
   * dihedral angles, as long as the shorter of the two.
   */
  function AnglesDistribution(ss: string, o: Output, num: Numerics): (r: seq<AngleRecord>)
    ensures |r| == if |ss| < |Alpha(o)| then |ss| else |Alpha(o)|
    ensures forall i :: 0 <= i < |r| ==>
      r[i] == AngleRecord(ss[i], 180.0 * o.vector[3 + i],
                          num.dihedral(o.vector[3 + ResidueCount(o) + i], o.vector[3 + 2 * ResidueCount(o) + i]))
  {
    var alpha, theta := Alpha(o), Theta(o, num);
    var len := if |ss| < |alpha| then |ss| else |alpha|;
    seq(len, i requires 0 <= i < len => AngleRecord(ss[i], alpha[i], theta[i]))
  }

  /** The pairs of the records labelled `l`, in input order. */
  function Labelled(xs: seq<AngleRecord>, l: char): seq<(real, real)>
    decreases |xs|
  {
    if xs == [] then []
    else
      var last := xs[|xs| - 1];
      Labelled(xs[..|xs| - 1], l) + (if last.ss == l then [Pair(last)] else [])
  }

  /** The labels of the records, in order. */
  function Labels(xs: seq<AngleRecord>): (r: seq<char>)
    ensures |r| == |xs| && forall i :: 0 <= i < |xs| ==> r[i] == xs[i].ss
  {
    seq(|xs|, i requires 0 <= i < |xs| => xs[i].ss)
  }

  /** Grouping keeps the input order: it distributes over concatenation. */
  lemma {:induction false} LabelledConcat(xs: seq<AngleRecord>, ys: seq<AngleRecord>, l: char)
    ensures Labelled(xs + ys, l) == Labelled(xs, l) + Labelled(ys, l)
    decreases |ys|
  {
    if ys != [] {
      var init := ys[..|ys| - 1];
      LabelledConcat(xs, init, l);
      assert (xs + ys)[..|xs + ys| - 1] == xs + init;
    } else {
      assert xs + ys == xs;
    }
  }

  /** A pair is kept under `l` exactly when some record labelled `l` carries it. */
  lemma {:induction false} LabelledMembers(xs: seq<AngleRecord>, l: char)
    ensures forall i :: 0 <= i < |xs| && xs[i].ss == l ==> Pair(xs[i]) in Labelled(xs, l)
    ensures forall p :: p in Labelled(xs, l) ==> exists i :: 0 <= i < |xs| && xs[i].ss == l && Pair(xs[i]) == p
    decreases |xs|
  {
    if xs != [] {
      var init := xs[..|xs| - 1];
      LabelledMembers(init, l);
      forall i | 0 <= i < |init|
        ensures init[i] == xs[i]
      {
      }
    }
  }

  /** The number of pairs kept under `l` is the number of records labelled `l`. */
  lemma {:induction false} LabelledCount(xs: seq<AngleRecord>, l: char)
    ensures |Labelled(xs, l)| == multiset(Labels(xs))[l]
    decreases |xs|
  {
    if xs != [] {
      var init := xs[..|xs| - 1];
      LabelledCount(init, l);
      assert Labels(xs) == Labels(init) + [xs[|xs| - 1].ss];
    }
  }

  /**
   * `hec_distribution(angles)`: one pass over the records, appending each pair
   * to the list of its label; records with any other label are dropped.
   */
  method HecDistribution(angles: seq<AngleRecord>) returns (h: seq<(real, real)>, e: seq<(real, real)>, c: seq<(real, real)>)
    ensures h == Labelled(angles, 'H') && e == Labelled(angles, 'E') && c == Labelled(angles, 'C')
    ensures |h| + |e| + |c| == multiset(Labels(angles))['H'] + multiset(Labels(angles))['E'] + multiset(Labels(angles))['C']
  {
    h, e, c := [], [], [];
    for i := 0 to |angles|
      invariant h == Labelled(angles[..i], 'H')
      invariant e == Labelled(angles[..i], 'E')
      invariant c == Labelled(angles[..i], 'C')
    {
      var element := angles[i];
      assert angles[..i + 1][..i] == angles[..i];
      if element.ss == 'H' { h := h + [Pair(element)]; }
      if element.ss == 'E' { e := e + [Pair(element)]; }
      if element.ss == 'C' { c := c + [Pair(element)]; }
    }
    assert angles[..|angles|] == angles;
    LabelledCount(angles, 'H');
    LabelledCount(angles, 'E');
    LabelledCount(angles, 'C');
  }
}
