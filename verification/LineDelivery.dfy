/** When the line reader delivers every line exactly once, across blocks and readers. */
module LineDelivery {
  import opened LineReading
  import opened Sequences

  /* ----- Line starts ----- */

  lemma {:induction false} NoNewlineBefore(f: string, p: nat, i: nat)
    requires p <= |f| && p <= i < LineEnd(f, p)
    ensures f[i] != '\n'
    decreases i - p
  {
    if p < i {
      NoNewlineBefore(f, p + 1, i);
    }
  }

  lemma {:induction false} StartsSplit(f: string, a: nat, b: nat, c: nat)
    requires a <= b <= c <= |f|
    ensures StartsAfter(f, a, c) == StartsAfter(f, a, b) + StartsAfter(f, b, c)
    decreases c
  {
    if b < c {
      StartsSplit(f, a, b, c - 1);
    }
  }

  lemma {:induction false} NoStartsInLine(f: string, a: nat, b: nat)
    requires a <= b <= |f| && b <= LineEnd(f, a)
    ensures StartsAfter(f, a, b) == []
    decreases b
  {
    if a < b {
      NoStartsInLine(f, a, b - 1);
      NoNewlineBefore(f, a, b - 1);
    }
  }

  lemma {:induction false} OneStart(f: string, e: nat)
    requires e < |f| && f[e] == '\n'
    ensures StartsAfter(f, e, e + 1) == if e + 1 < |f| then [e + 1] else []
  {
    assert StartsAfter(f, e, e) == [];
  }

  lemma {:induction false} UpToNewline(f: string, a: nat)
    requires a <= |f| && LineEnd(f, a) < |f|
    ensures var e := LineEnd(f, a); StartsAfter(f, a, e + 1) == if e + 1 < |f| then [e + 1] else []
  {
    NoStartsInLine(f, a, LineEnd(f, a));
  }

  /** The first start after `a` follows the first newline, if that is not the last byte. */
  lemma {:induction false} FirstNewline(f: string, a: nat, b: nat)
    requires a <= b <= |f| && LineEnd(f, a) < b
    ensures var e := LineEnd(f, a);
            StartsAfter(f, a, b) == (if e + 1 < |f| then [e + 1] else []) + StartsAfter(f, e + 1, b)
  {
    StartsSplit(f, a, LineEnd(f, a) + 1, b);
    UpToNewline(f, a);
  }

  lemma {:induction false} LinesAtLast(f: string, ps: seq<nat>, p: nat)
    requires p <= |f| && forall x :: 0 <= x < |ps| ==> ps[x] <= |f|
    ensures LinesAt(f, ps + [p]) == LinesAt(f, ps) + [Line(f, p)]
  {
    assert (ps + [p])[..|ps|] == ps;
  }

  lemma {:induction false} LinesAtConcat(f: string, ps: seq<nat>, qs: seq<nat>)
    requires forall x :: 0 <= x < |ps| ==> ps[x] <= |f|
    requires forall x :: 0 <= x < |qs| ==> qs[x] <= |f|
    ensures LinesAt(f, ps + qs) == LinesAt(f, ps) + LinesAt(f, qs)
  {
    if qs == [] {
      assert ps + qs == ps;
    } else {
      var n := |qs| - 1;
      LinesAtConcat(f, ps, qs[..n]);
      LinesAtLast(f, ps + qs[..n], qs[n]);
      assert ps + qs == ps + qs[..n] + [qs[n]];
    }
  }

  lemma {:induction false} LinesAtSingle(f: string, p: nat)
    requires p <= |f|
    ensures LinesAt(f, [p]) == [Line(f, p)]
  {
    assert [p][..0] == [];
  }

  lemma {:induction false} LinesAtOne(f: string, p: nat, qs: seq<nat>)
    requires p <= |f| && forall x :: 0 <= x < |qs| ==> qs[x] <= |f|
    ensures LinesAt(f, [p] + qs) == [Line(f, p)] + LinesAt(f, qs)
  {
    LinesAtConcat(f, [p], qs);
    LinesAtSingle(f, p);
  }

  /* ----- One block ----- */

  lemma {:induction false} ReadFromUnfold(f: string, l: nat, b: nat)
    requires l <= b <= |f|
    ensures ReadFrom(f, l, b) == [Line(f, l)] + if LineEnd(f, l) < b then Resume(f, LineEnd(f, l), b) else []
  {
  }

  lemma {:induction false} StartsFromNewline(f: string, l: nat, b: nat)
    requires l <= b <= |f|
    ensures StartsAfter(f, l, b) == if LineEnd(f, l) < b then StartsAfter(f, LineEnd(f, l), b) else []
  {
    var e := LineEnd(f, l);
    if e < b {
      StartsSplit(f, l, e, b);
      NoStartsInLine(f, l, e);
      var more := StartsAfter(f, e, b);
      assert [] + more == more;
    } else {
      NoStartsInLine(f, l, b);
    }
  }

  /** Reading from `l` delivers that line and then the line at every later start. */
  lemma {:induction false} ReadFromIs(f: string, l: nat, b: nat)
    requires l <= b <= |f|
    ensures ReadFrom(f, l, b) == [Line(f, l)] + LinesAt(f, StartsAfter(f, l, b))
    decreases b - l, 1
  {
    ReadFromUnfold(f, l, b);
    StartsFromNewline(f, l, b);
    if LineEnd(f, l) < b {
      ResumeIs(f, LineEnd(f, l), b);
    }
  }

  lemma {:induction false} ListOne(f: string, p: nat, ps: seq<nat>, qs: seq<nat>, lines: seq<string>)
    requires p <= |f| && forall x :: 0 <= x < |ps| ==> ps[x] <= |f|
    requires qs == [p] + ps && lines == [Line(f, p)] + LinesAt(f, ps)
    ensures lines == LinesAt(f, qs)
  {
    LinesAtOne(f, p, ps);
  }

  /** Skipping to the first newline and reading from there delivers every start from `a`. */
  lemma {:induction false} ReadAfterNewline(f: string, a: nat, b: nat)
    requires a <= b <= |f| && LineEnd(f, a) < b && LineEnd(f, a) + 1 < |f|
    requires var l := LineEnd(f, a) + 1; ReadFrom(f, l, b) == [Line(f, l)] + LinesAt(f, StartsAfter(f, l, b))
    ensures ReadFrom(f, LineEnd(f, a) + 1, b) == LinesAt(f, StartsAfter(f, a, b))
  {
    var l := LineEnd(f, a) + 1;
    FirstNewline(f, a, b);
    ListOne(f, l, StartsAfter(f, l, b), StartsAfter(f, a, b), ReadFrom(f, l, b));
  }

  lemma {:induction false} ResumeIs(f: string, e: nat, b: nat)
    requires e < b <= |f| && f[e] == '\n'
    ensures Resume(f, e, b) == LinesAt(f, StartsAfter(f, e, b))
    decreases b - e, 0
  {
    if e == b - 1 {
      OneStart(f, e);
      LinesAtSingle(f, b);
    } else {
      ReadFromIs(f, e + 1, b);
      ReadAfterNewline(f, e, b);
      var read := ReadFrom(f, e + 1, b);
      assert Resume(f, e, b) == read;
    }
  }

  /** What a block must look like: a later block holds a newline that is not the last byte of
      the file; the first block has two bytes, or starts with a newline and is not alone. */
  predicate BlockOk(k: Block)
    requires k.Valid()
  {
    if k.a == 0 then k.b >= 2 || (k.file[0] == '\n' && |k.file| > 1)
    else LineEnd(k.file, k.a) < k.b && LineEnd(k.file, k.a) != |k.file| - 1
  }

  lemma {:induction false} StartsOf(k: Block)
    requires k.Valid()
    ensures k.a == 0 && k.file[0] != '\n' ==> Starts(k) == [0] + StartsAfter(k.file, k.a, k.b)
    ensures !(k.a == 0 && k.file[0] != '\n') ==> Starts(k) == StartsAfter(k.file, k.a, k.b)
  {
    var ps := StartsAfter(k.file, k.a, k.b);
    assert [] + ps == ps;
  }

  lemma {:induction false} OneByteBlock(k: Block)
    requires k.Valid() && k.b - k.a == 1 && k.file[k.a] == '\n'
    ensures Delivered(k, false) == Expected(k)
  {
    StartsOf(k);
    OneStart(k.file, k.a);
    LinesAtSingle(k.file, k.b);
    assert Starts(k) == if k.b < |k.file| then [k.b] else [];
  }

  lemma {:induction false} SkipsToNewline(k: Block)
    requires k.Valid() && BlockOk(k) && !(k.a == 0 && k.file[0] != '\n')
    ensures FirstStart(k) == LineEnd(k.file, k.a) + 1 < |k.file| && LineEnd(k.file, k.a) < k.b
  {
  }

  lemma {:induction false} WholeBlock(k: Block)
    requires k.Valid() && BlockOk(k)
    ensures ReadFrom(k.file, FirstStart(k), k.b) == Expected(k)
  {
    var f, b, l := k.file, k.b, FirstStart(k);
    StartsOf(k);
    ReadFromIs(f, l, b);
    if k.a == 0 && f[0] != '\n' {
      ListOne(f, 0, StartsAfter(f, 0, b), Starts(k), ReadFrom(f, 0, b));
    } else {
      SkipsToNewline(k);
      ReadAfterNewline(f, k.a, b);
    }
  }

  lemma {:induction false} BlockOkDelivers(k: Block, chained: bool)
    requires k.Valid() && BlockOk(k)
    ensures Delivered(k, chained) == Expected(k)
  {
    if !chained && k.b - k.a == 1 {
      OneByteBlock(k);
    } else {
      WholeBlock(k);
    }
  }

  lemma {:induction false} ReadsSomething(f: string, l: nat, b: nat)
    requires l <= b <= |f|
    ensures ReadFrom(f, l, b) != []
  {
    ReadFromUnfold(f, l, b);
  }

  lemma {:induction false} LineEndStep(f: string, p: nat)
    requires p < |f| && f[p] != '\n'
    ensures LineEnd(f, p) == LineEnd(f, p + 1)
  {
  }

  /** A first block of one byte: a lone newline yields a line too many when chained; any
      other byte is lost when the block is fetched into an empty buffer. */
  lemma {:induction false} OneByteFirstBlock(k: Block)
    requires k.Valid() && k.a == 0 && !BlockOk(k)
    ensures Delivered(k, true) != Expected(k) || Delivered(k, false) != Expected(k)
  {
    var f := k.file;
    StartsOf(k);
    if f[0] == '\n' {
      OneStart(f, 0);
      ReadsSomething(f, 1, 1);
    } else {
      StartsFromNewline(f, 0, 1);
      LinesAtSingle(f, 0);
      LineEndStep(f, 0);
      assert [0] + [] == [0];
      assert Expected(k) == [Line(f, 0)];
      if 1 < |f| {
        assert Delivered(k, false) == [Line(f, 1)];
        assert |Line(f, 0)| == |Line(f, 1)| + 1;
      }
    }
  }

  /** A later block in which no line starts yields one all the same. */
  lemma {:induction false} LaterBlockWithoutStart(k: Block)
    requires k.Valid() && k.a > 0 && !BlockOk(k)
    ensures Delivered(k, true) != Expected(k)
  {
    var f, p := k.file, LineEnd(k.file, k.a);
    StartsOf(k);
    StartsFromNewline(f, k.a, k.b);
    if p < k.b {
      OneStart(f, p);
    }
    ReadsSomething(f, FirstStart(k), k.b);
  }

  /** EXACT CONDITION. A block yields exactly the lines that start in it, in order and
      complete, however it comes to be fetched, if and only if it is as it must be. */
  lemma {:induction false} DeliveredIffBlockOk(k: Block)
    requires k.Valid()
    ensures (forall chained :: Delivered(k, chained) == Expected(k)) <==> BlockOk(k)
  {
    if BlockOk(k) {
      forall chained ensures Delivered(k, chained) == Expected(k) {
        BlockOkDelivers(k, chained);
      }
    } else if k.a == 0 {
      OneByteFirstBlock(k);
    } else {
      LaterBlockWithoutStart(k);
    }
  }

  /* ----- All blocks, all readers ----- */

  predicate AllOk(ks: seq<Block>) {
    AllValid(ks) && forall i :: 0 <= i < |ks| ==> BlockOk(ks[i])
  }

  /** Bags of lines added up. */
  ghost function Gather<T>(xs: seq<T>, g: T -> multiset<string>): multiset<string> {
    if xs == [] then multiset{} else g(xs[0]) + Gather(xs[1..], g)
  }

  lemma {:induction false} GatherOne<T>(x: T, xs: seq<T>, g: T -> multiset<string>)
    ensures Gather([x] + xs, g) == g(x) + Gather(xs, g)
  {
    assert ([x] + xs)[1..] == xs;
  }

  lemma {:induction false} GatherConcat<T>(a: seq<T>, b: seq<T>, g: T -> multiset<string>)
    ensures Gather(a + b, g) == Gather(a, g) + Gather(b, g)
  {
    if a == [] {
      assert a + b == b;
    } else {
      GatherConcat(a[1..], b, g);
      assert (a + b)[1..] == a[1..] + b;
    }
  }

  lemma {:induction false} GatherInsert<T>(pre: seq<T>, x: T, post: seq<T>, g: T -> multiset<string>)
    ensures Gather(pre + ([x] + post), g) == g(x) + Gather(pre + post, g)
  {
    GatherConcat(pre, [x] + post, g);
    GatherOne(x, post, g);
    GatherConcat(pre, post, g);
  }

  /** The order does not matter. */
  lemma {:induction false} GatherPermutation<T>(a: seq<T>, b: seq<T>, g: T -> multiset<string>)
    requires multiset(a) == multiset(b)
    ensures Gather(a, g) == Gather(b, g)
    decreases |a|
  {
    if a == [] {
      assert |multiset(b)| == 0;
    } else {
      var pre, post := TakeOutFirst(a, b);
      GatherPermutation(a[1..], pre + post, g);
      GatherOne(a[0], a[1..], g);
      GatherInsert(pre, a[0], post, g);
    }
  }

  ghost function LinesOf(k: Block): multiset<string> {
    if k.Valid() then multiset(Expected(k)) else multiset{}
  }

  /** The lines that start in the blocks, counted with multiplicity. */
  ghost function ExpectedBag(ks: seq<Block>): multiset<string> {
    Gather(ks, LinesOf)
  }

  lemma {:induction false} ReaderDeliversItsBlocks(ks: seq<Block>, chained: bool)
    requires AllOk(ks)
    ensures multiset(DeliveredAll(ks, chained)) == ExpectedBag(ks)
  {
    if ks != [] {
      DeliveredIffBlockOk(ks[0]);
      var first, more := Delivered(ks[0], chained), DeliveredAll(ks[1..], EndsAtEof(ks[0], chained));
      ReaderDeliversItsBlocks(ks[1..], EndsAtEof(ks[0], chained));
      assert DeliveredAll(ks, chained) == first + more;
      assert multiset(first) == LinesOf(ks[0]);
    }
  }

  /** A file cut into consecutive blocks at increasing points, from `from` to its end. */
  ghost predicate IsCut(f: string, from: nat, points: seq<nat>)
    decreases |points|
  {
    if points == [] then from == |f|
    else from < points[0] <= |f| && IsCut(f, points[0], points[1..])
  }

  function BlocksOf(f: string, from: nat, points: seq<nat>): seq<Block>
    decreases |points|
  {
    if points == [] then [] else [Block(f, from, points[0])] + BlocksOf(f, points[0], points[1..])
  }

  /** Every line of the file: the one at 0 unless the file starts with a newline, and the one
      after each newline before end of file. */
  function FileLines(f: string): seq<string> {
    if f == "" then [] else Expected(Block(f, 0, |f|))
  }

  lemma {:induction false} SplitExpected(f: string, a: nat, b: nat)
    requires a < b <= |f|
    ensures a == 0 ==> FileLines(f) == Expected(Block(f, 0, b)) + LinesAt(f, StartsAfter(f, b, |f|))
    ensures a > 0 ==> LinesAt(f, StartsAfter(f, a, |f|)) == Expected(Block(f, a, b)) + LinesAt(f, StartsAfter(f, b, |f|))
  {
    StartsSplit(f, a, b, |f|);
    StartsOf(Block(f, a, b));
    StartsOf(Block(f, a, |f|));
    var first, later := Starts(Block(f, a, b)), StartsAfter(f, b, |f|);
    assert Starts(Block(f, a, |f|)) == first + later;
    LinesAtConcat(f, first, later);
  }

  /** The starts of consecutive later blocks are those of the piece they make up. */
  lemma {:induction false} LaterBlocksCover(f: string, from: nat, points: seq<nat>)
    requires IsCut(f, from, points) && from > 0
    ensures from <= |f| && ExpectedBag(BlocksOf(f, from, points)) == multiset(LinesAt(f, StartsAfter(f, from, |f|)))
    decreases |points|
  {
    if points != [] {
      var b := points[0];
      LaterBlocksCover(f, b, points[1..]);
      SplitExpected(f, from, b);
      GatherOne(Block(f, from, b), BlocksOf(f, b, points[1..]), LinesOf);
    }
  }

  /** The blocks of a cut file together hold every line of the file once. */
  lemma {:induction false} CutCoversFile(f: string, points: seq<nat>)
    requires IsCut(f, 0, points)
    ensures ExpectedBag(BlocksOf(f, 0, points)) == multiset(FileLines(f))
  {
    if points != [] {
      var b := points[0];
      var later := BlocksOf(f, b, points[1..]);
      LaterBlocksCover(f, b, points[1..]);
      SplitExpected(f, 0, b);
      GatherOne(Block(f, 0, b), later, LinesOf);
      assert BlocksOf(f, 0, points) == [Block(f, 0, b)] + later;
    }
  }

  function Flatten(readers: seq<seq<Block>>): seq<Block> {
    if readers == [] then [] else readers[0] + Flatten(readers[1..])
  }

  /** Everything that all readers deliver, counted with multiplicity. */
  ghost function DeliveredByAll(readers: seq<seq<Block>>): multiset<string>
    requires forall i :: 0 <= i < |readers| ==> AllValid(readers[i])
  {
    if readers == [] then multiset{}
    else multiset(DeliveredAll(readers[0], false)) + DeliveredByAll(readers[1..])
  }

  predicate ReadersOk(readers: seq<seq<Block>>) {
    forall i :: 0 <= i < |readers| ==> AllValid(readers[i]) && AllOk(readers[i])
  }

  lemma {:induction false} ReadersDeliverTheirBlocks(readers: seq<seq<Block>>)
    requires ReadersOk(readers)
    ensures DeliveredByAll(readers) == ExpectedBag(Flatten(readers))
  {
    if readers != [] {
      ReadersDeliverTheirBlocks(readers[1..]);
      ReaderDeliversItsBlocks(readers[0], false);
      GatherConcat(readers[0], Flatten(readers[1..]), LinesOf);
    }
  }

  /** A file and the points at which it is cut. */
  datatype Cut = Cut(file: string, points: seq<nat>) {
    ghost predicate Valid() {
      IsCut(file, 0, points)
    }
  }

  /** The blocks of all files of a directory. */
  function AllBlocks(cuts: seq<Cut>): seq<Block> {
    if cuts == [] then [] else BlocksOf(cuts[0].file, 0, cuts[0].points) + AllBlocks(cuts[1..])
  }

  ghost function LinesOfFile(c: Cut): multiset<string> {
    multiset(FileLines(c.file))
  }

  /** All their lines, counted with multiplicity. */
  ghost function DirectoryLines(cuts: seq<Cut>): multiset<string> {
    Gather(cuts, LinesOfFile)
  }

  lemma {:induction false} CutsCoverDirectory(cuts: seq<Cut>)
    requires forall i :: 0 <= i < |cuts| ==> cuts[i].Valid()
    ensures ExpectedBag(AllBlocks(cuts)) == DirectoryLines(cuts)
  {
    if cuts != [] {
      var first := BlocksOf(cuts[0].file, 0, cuts[0].points);
      CutsCoverDirectory(cuts[1..]);
      CutCoversFile(cuts[0].file, cuts[0].points);
      GatherConcat(first, AllBlocks(cuts[1..]), LinesOf);
    }
  }

  lemma {:induction false} ReadersBlocksAreListed(readers: seq<seq<Block>>, i: nat, j: nat)
    requires i < |readers| && j < |readers[i]|
    ensures readers[i][j] in Flatten(readers)
  {
    if i > 0 {
      ReadersBlocksAreListed(readers[1..], i - 1, j);
    }
  }

  lemma {:induction false} ReadersAreOk(readers: seq<seq<Block>>, ks: seq<Block>)
    requires multiset(Flatten(readers)) == multiset(ks) && AllOk(ks)
    ensures ReadersOk(readers)
  {
    forall i, j | 0 <= i < |readers| && 0 <= j < |readers[i]|
      ensures readers[i][j].Valid() && BlockOk(readers[i][j])
    {
      ReadersBlocksAreListed(readers, i, j);
      assert readers[i][j] in multiset(Flatten(readers));
      var x :| 0 <= x < |ks| && ks[x] == readers[i][j];
    }
  }

  /** EXACTLY ONCE. Cut any files into blocks at any points, and give every block to exactly
      one of any number of readers, in any order, the blocks of different files mixed: if
      every block is as it must be, then together the readers deliver every line of every
      file once and complete, and nothing else. */
  lemma {:induction false} EveryLineExactlyOnce(cuts: seq<Cut>, readers: seq<seq<Block>>)
    requires (forall i :: 0 <= i < |cuts| ==> cuts[i].Valid()) && AllOk(AllBlocks(cuts))
    requires multiset(Flatten(readers)) == multiset(AllBlocks(cuts))
    ensures ReadersOk(readers) && DeliveredByAll(readers) == DirectoryLines(cuts)
  {
    ReadersAreOk(readers, AllBlocks(cuts));
    ReadersDeliverTheirBlocks(readers);
    CutsCoverDirectory(cuts);
    GatherPermutation(Flatten(readers), AllBlocks(cuts), LinesOf);
  }

  /** The loader's loop: calls `next` until it fails. */
  method ReadUntilEnd(reader: LineInputFormat) returns (lines: seq<string>)
    requires reader.Valid()
    modifies reader
    ensures reader.Valid() && lines == old(reader.Cursor().Remaining())
    ensures reader.Cursor() == Idle([])
  {
    ghost var todo := reader.Cursor().Remaining();
    lines := [];
    var success := true;
    assert [] + todo == todo;
    while success
      invariant reader.Valid()
      invariant if success then lines + reader.Cursor().Remaining() == todo else lines == todo && reader.Cursor() == Idle([])
      decreases success, |todo| - |lines|
    {
      ghost var c := reader.Cursor();
      NextTakes(c);
      var line;
      success, line := reader.Next();
      if success {
        Regroup(lines, [line], reader.Cursor().Remaining());
        lines := lines + [line];
      } else {
        assert lines + [] == lines;
      }
    }
  }

  /** A new reader hands over exactly the lines of the blocks it is assigned. */
  method LoadBlocks(blocks: seq<Block>) returns (lines: seq<string>)
    requires AllValid(blocks)
    ensures lines == DeliveredAll(blocks, false)
    ensures AllOk(blocks) ==> multiset(lines) == ExpectedBag(blocks)
  {
    var reader := new LineInputFormat(blocks);
    lines := ReadUntilEnd(reader);
    if AllOk(blocks) {
      ReaderDeliversItsBlocks(blocks, false);
    }
  }
}
