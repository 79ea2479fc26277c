/** LineInputFormat: reading lines from file blocks. A line that crosses the end of a block is
    read on into the following bytes by the reader of the block it starts in. */
module LineReading {
  import opened Sequences

  /** Bytes a..b of a file. */
  datatype Block = Block(file: string, a: nat, b: nat) {
    predicate Valid() {
      a < b <= |file|
    }
  }

  /** The first newline at or after `p`, or the end of the file. */
  function LineEnd(f: string, p: nat): (e: nat)
    requires p <= |f|
    ensures p <= e <= |f|
    ensures e < |f| ==> f[e] == '\n'
    decreases |f| - p
  {
    if p == |f| || f[p] == '\n' then p else LineEnd(f, p + 1)
  }

  /** The line that starts at `p`. */
  function Line(f: string, p: nat): string
    requires p <= |f|
  {
    f[p..LineEnd(f, p)]
  }

  /* ----- What should be delivered ----- */

  /** The line starts that follow a newline within bytes a..b and lie before end of file. */
  function StartsAfter(f: string, a: nat, b: nat): (ps: seq<nat>)
    requires a <= b <= |f|
    ensures forall x :: 0 <= x < |ps| ==> ps[x] < |f|
    decreases b
  {
    if a == b then []
    else StartsAfter(f, a, b - 1) + if f[b - 1] == '\n' && b < |f| then [b] else []
  }

  /** The line starts that belong to a block: the start of the file, unless it is a newline,
      belongs to the first block; the byte after a newline belongs to the newline's block. */
  function Starts(k: Block): (ps: seq<nat>)
    requires k.Valid()
    ensures forall x :: 0 <= x < |ps| ==> ps[x] < |k.file|
  {
    (if k.a == 0 && k.file[0] != '\n' then [0] else []) + StartsAfter(k.file, k.a, k.b)
  }

  function LinesAt(f: string, ps: seq<nat>): (ls: seq<string>)
    requires forall x :: 0 <= x < |ps| ==> ps[x] <= |f|
    ensures |ls| == |ps|
  {
    if ps == [] then [] else LinesAt(f, ps[..|ps| - 1]) + [Line(f, ps[|ps| - 1])]
  }

  function Expected(k: Block): seq<string>
    requires k.Valid()
  {
    LinesAt(k.file, Starts(k))
  }

  /* ----- What is delivered ----- */

  /** With the newline at `e` just consumed, the rest of the block that ends at `b`. */
  function Resume(f: string, e: nat, b: nat): seq<string>
    requires e < b <= |f|
    decreases b - e, 0
  {
    if e == b - 1 then if b == |f| then [] else [Line(f, b)]
    else ReadFrom(f, e + 1, b)
  }

  /** A line is read at `l`, then the rest of the block. */
  function ReadFrom(f: string, l: nat, b: nat): seq<string>
    requires l <= b <= |f|
    decreases b - l, 1
  {
    var e := LineEnd(f, l);
    [Line(f, l)] + if e >= b then [] else Resume(f, e, b)
  }

  /** Whether that ends by finding the end of the file after a final newline. */
  predicate ResumeEof(f: string, e: nat, b: nat)
    requires e < b <= |f|
    decreases b - e, 0
  {
    if e == b - 1 then b == |f| else ReadFromEof(f, e + 1, b)
  }

  predicate ReadFromEof(f: string, l: nat, b: nat)
    requires l <= b <= |f|
    decreases b - l, 1
  {
    LineEnd(f, l) < b && ResumeEof(f, LineEnd(f, l), b)
  }

  /** Where the first line of a fresh block is taken to start. Without a newline in a later
      block the search result wraps around to the start of the block. */
  function FirstStart(k: Block): (l: nat)
    requires k.Valid()
    ensures k.a <= l <= k.b
  {
    if k.a == 0 then if k.file[0] == '\n' then 1 else 0
    else
      var p := LineEnd(k.file, k.a);
      if p < k.b then p + 1 else k.a
  }

  /** The lines a fresh block yields. When it is fetched because the buffer was empty, a block
      of one byte is taken for a finished one; when it is fetched because the previous file
      ended (`chained`), that test is skipped. */
  function Delivered(k: Block, chained: bool): seq<string>
    requires k.Valid()
  {
    if !chained && k.b - k.a == 1 then Resume(k.file, k.a, k.b)
    else ReadFrom(k.file, FirstStart(k), k.b)
  }

  predicate EndsAtEof(k: Block, chained: bool)
    requires k.Valid()
  {
    if !chained && k.b - k.a == 1 then ResumeEof(k.file, k.a, k.b)
    else ReadFromEof(k.file, FirstStart(k), k.b)
  }

  predicate AllValid(ks: seq<Block>) {
    forall i :: 0 <= i < |ks| ==> ks[i].Valid()
  }

  function DeliveredAll(ks: seq<Block>, chained: bool): seq<string>
    requires AllValid(ks)
  {
    if ks == [] then []
    else Delivered(ks[0], chained) + DeliveredAll(ks[1..], EndsAtEof(ks[0], chained))
  }

  /** What a reader that has consumed the newline at `e` still delivers, `ks` to follow. */
  function Rest(f: string, e: nat, b: nat, ks: seq<Block>): seq<string>
    requires e < b <= |f| && AllValid(ks)
  {
    Resume(f, e, b) + DeliveredAll(ks, ResumeEof(f, e, b))
  }

  /** What a reader about to read a line at `l` still delivers. */
  function RestFrom(f: string, l: nat, b: nat, ks: seq<Block>): seq<string>
    requires l <= b <= |f| && AllValid(ks)
  {
    ReadFrom(f, l, b) + DeliveredAll(ks, ReadFromEof(f, l, b))
  }

  lemma {:induction false} RestFromUnfold(f: string, l: nat, b: nat, ks: seq<Block>)
    requires l <= b <= |f| && AllValid(ks)
    ensures var e := LineEnd(f, l);
            RestFrom(f, l, b, ks) == [Line(f, l)] + if e < b then Rest(f, e, b, ks) else DeliveredAll(ks, false)
  {
    var e := LineEnd(f, l);
    if e < b {
      Regroup([Line(f, l)], Resume(f, e, b), DeliveredAll(ks, ResumeEof(f, e, b)));
    } else {
      assert [Line(f, l)] + [] == [Line(f, l)];
    }
  }

  lemma {:induction false} RestUnfold(f: string, e: nat, b: nat, ks: seq<Block>)
    requires e < b <= |f| && AllValid(ks)
    ensures Rest(f, e, b, ks) ==
            if e < b - 1 then RestFrom(f, e + 1, b, ks)
            else if b == |f| then DeliveredAll(ks, true)
            else [Line(f, b)] + DeliveredAll(ks, false)
  {
    if e == b - 1 && b == |f| {
      assert [] + DeliveredAll(ks, true) == DeliveredAll(ks, true);
    }
  }

  lemma {:induction false} DeliveredAllUnfold(ks: seq<Block>, chained: bool)
    requires AllValid(ks) && ks != []
    ensures var k := ks[0];
            DeliveredAll(ks, chained) ==
            if !chained && k.b - k.a == 1 then Rest(k.file, k.a, k.b, ks[1..])
            else RestFrom(k.file, FirstStart(k), k.b, ks[1..])
  {
  }

  /* ----- One line at a time ----- */

  /** Where a reader stands: between blocks, or with the newline at `e` just consumed in a
      block that ends at `b`; the blocks `ks` are still to come. */
  datatype Cursor = Idle(ks: seq<Block>) | After(f: string, e: nat, b: nat, ks: seq<Block>) {
    predicate Valid() {
      AllValid(ks) && (After? ==> e < b <= |f|)
    }

    /** The lines still to come. */
    function Remaining(): seq<string>
      requires Valid()
    {
      if Idle? then DeliveredAll(ks, false) else Rest(f, e, b, ks)
    }

    function Next(): Outcome
      requires Valid()
    {
      match this
      case After(f, e, b, ks) => NextAfter(f, e, b, ks)
      case Idle(ks) =>
        if ks == [] then End
        else
          var k := ks[0];
          if k.b - k.a == 1 then NextAfter(k.file, k.a, k.b, ks[1..]) else TakeFirst(ks)
    }
  }

  datatype Outcome = End | Got(line: string, cursor: Cursor)

  /** A line is read at `l`. */
  function Take(f: string, l: nat, b: nat, ks: seq<Block>): Outcome
    requires l <= b <= |f|
  {
    var e := LineEnd(f, l);
    Got(f[l..e], if e < b then After(f, e, b, ks) else Idle(ks))
  }

  function TakeFirst(ks: seq<Block>): Outcome
    requires ks != [] && ks[0].Valid()
  {
    Take(ks[0].file, FirstStart(ks[0]), ks[0].b, ks[1..])
  }

  function NextAfter(f: string, e: nat, b: nat, ks: seq<Block>): Outcome
    requires e < b <= |f| && AllValid(ks)
  {
    if e < b - 1 then Take(f, e + 1, b, ks)
    else if b < |f| then Got(Line(f, b), Idle(ks))
    else if ks == [] then End
    else TakeFirst(ks)
  }

  /** The outcome takes the first of the lines `todo`. */
  predicate Takes(o: Outcome, todo: seq<string>) {
    if o.End? then todo == []
    else o.cursor.Valid() && todo == [o.line] + o.cursor.Remaining()
  }

  lemma {:induction false} TakeTakes(f: string, l: nat, b: nat, ks: seq<Block>)
    requires l <= b <= |f| && AllValid(ks)
    ensures Takes(Take(f, l, b, ks), RestFrom(f, l, b, ks))
  {
    RestFromUnfold(f, l, b, ks);
  }

  lemma {:induction false} TakeFirstTakes(ks: seq<Block>)
    requires AllValid(ks) && ks != []
    ensures Takes(TakeFirst(ks), DeliveredAll(ks, true))
  {
    DeliveredAllUnfold(ks, true);
    TakeTakes(ks[0].file, FirstStart(ks[0]), ks[0].b, ks[1..]);
  }

  lemma {:induction false} EndTakes(f: string, b: nat, ks: seq<Block>)
    requires 0 < b <= |f| && AllValid(ks)
    ensures Takes(NextAfter(f, b - 1, b, ks), Rest(f, b - 1, b, ks))
  {
    RestUnfold(f, b - 1, b, ks);
    if b == |f| && ks != [] {
      TakeFirstTakes(ks);
    }
  }

  lemma {:induction false} WithinTakes(f: string, e: nat, b: nat, ks: seq<Block>, o: Outcome, todo: seq<string>)
    requires e + 1 < b <= |f| && AllValid(ks)
    requires o == Take(f, e + 1, b, ks) && todo == RestFrom(f, e + 1, b, ks)
    ensures Takes(o, todo)
  {
    TakeTakes(f, e + 1, b, ks);
  }

  lemma {:induction false} NextAfterTakes(f: string, e: nat, b: nat, ks: seq<Block>)
    requires e < b <= |f| && AllValid(ks)
    ensures Takes(NextAfter(f, e, b, ks), Rest(f, e, b, ks))
  {
    if e < b - 1 {
      RestUnfold(f, e, b, ks);
      WithinTakes(f, e, b, ks, NextAfter(f, e, b, ks), Rest(f, e, b, ks));
    } else {
      EndTakes(f, b, ks);
    }
  }

  /** Reading takes the first of the lines still to come, until there are none. */
  lemma {:induction false} NextTakes(c: Cursor)
    requires c.Valid()
    ensures Takes(c.Next(), c.Remaining())
  {
    if c.After? {
      NextAfterTakes(c.f, c.e, c.b, c.ks);
    } else if c.ks != [] {
      var k := c.ks[0];
      DeliveredAllUnfold(c.ks, false);
      if k.b - k.a == 1 {
        NextAfterTakes(k.file, k.a, k.b, c.ks[1..]);
      } else {
        TakeTakes(k.file, FirstStart(k), k.b, c.ks[1..]);
      }
    }
  }

  /* ----- The reader object ----- */

  /** The scan for a newline; -1 stands for npos, also after conversion to int. */
  method FindNext(s: string, l: nat) returns (r: int)
    requires l <= |s|
    ensures r == if LineEnd(s, l) < |s| then LineEnd(s, l) else -1
  {
    r := l;
    while r != |s| && s[r] != '\n'
      invariant l <= r <= |s| && LineEnd(s, l) == LineEnd(s, r)
      decreases |s| - r
    {
      r := r + 1;
    }
    if r == |s| {
      r := -1;
    }
  }

  /** Scanning a piece of the file is scanning the file, cut off at the end of the piece. */
  lemma {:induction false} LineEndInPiece(f: string, c: nat, p: nat, l: nat)
    requires c <= c + l <= p <= |f|
    ensures var e := LineEnd(f, c + l); LineEnd(f[c..p], l) == (if e < p then e else p) - c
    decreases p - c - l
  {
    if c + l < p && f[c + l] != '\n' {
      LineEndInPiece(f, c, p, l + 1);
    }
  }

  lemma {:induction false} SameLineEnd(f: string, p: nat, q: nat)
    requires p <= q <= |f| && q <= LineEnd(f, p)
    ensures LineEnd(f, q) == LineEnd(f, p)
    decreases q - p
  {
    if p < q {
      SameLineEnd(f, p + 1, q);
    }
  }

  lemma {:induction false} Glue(part: string, f: string, s: nat, c: nat, p: nat)
    requires s <= c <= p <= |f|
    ensures part + f[s..c] + f[c..p] == part + f[s..p]
  {
    assert f[s..c] + f[c..p] == f[s..p];
  }

  lemma {:induction false} Cut(f: string, c: nat, p: nat, x: nat, y: nat)
    requires c <= p <= |f| && x <= y <= p - c
    ensures f[c..p][x..y] == f[c + x..c + y]
  {
    assert forall i :: 0 <= i < y - x ==> f[c..p][x..y][i] == f[c..p][x + i] == f[c + x..c + y][i];
  }

  /** A line read up to `cur` and a piece c..p: the piece extends it, or ends it. */
  lemma {:induction false} PieceOfLine(part: string, f: string, s: nat, c: nat, p: nat)
    requires s <= c <= p <= |f|
    ensures var r := LineEnd(f[c..p], 0);
            if r < p - c then r == LineEnd(f, c) - c && (part + f[s..c]) + f[c..p][..r] == part + f[s..LineEnd(f, c)]
            else p <= LineEnd(f, c) == LineEnd(f, p) && (part + f[s..c]) + f[c..p] == part + f[s..p]
  {
    LineEndInPiece(f, c, p, 0);
    var r := LineEnd(f[c..p], 0);
    if r < p - c {
      Cut(f, c, p, 0, r);
      Glue(part, f, s, c, c + r);
    } else {
      SameLineEnd(f, c, p);
      Glue(part, f, s, c, p);
    }
  }

  class LineInputFormat {
    /** The blocks that the assigner will hand to this reader, in order. */
    const blocks: seq<Block>
    var nextBlock: nat
    /** The splitter: the open file, the offset of its block, and the read position. */
    var file: string
    var offset: nat
    var pos: nat
    /** The reader. */
    var buffer: string
    var l: int
    var r: int
    var lastPart: string

    ghost predicate Valid()
      reads this
    {
      && AllValid(blocks) && nextBlock <= |blocks|
      && (buffer != "" ==>
            && offset < pos <= |file| && buffer == file[offset..pos]
            && 0 <= r < |buffer| && buffer[r] == '\n' && (offset == 0 ==> r > 0))
    }

    ghost function Cursor(): (c: Cursor)
      requires Valid()
      reads this
      ensures c.Valid()
    {
      if buffer == "" then Idle(blocks[nextBlock..]) else After(file, offset + r, pos, blocks[nextBlock..])
    }

    constructor (blocks: seq<Block>)
      requires AllValid(blocks)
      ensures Valid() && Cursor() == Idle(blocks)
    {
      this.blocks := blocks;
      nextBlock, file, offset, pos := 0, "", 0, 0;
      buffer, l, r, lastPart := "", 0, 0, "";
      new;
      assert blocks[0..] == blocks;
    }

    /** The following bytes of the open file, as many as one read returns. */
    method FetchNext() returns (chunk: string)
      requires pos <= |file|
      modifies this`pos
      ensures old(pos) <= pos <= |file| && chunk == file[old(pos)..pos]
      ensures chunk == "" <==> old(pos) == |file|
    {
      var n: nat := 0;
      if pos < |file| {
        n :| 0 < n <= |file| - pos;
      }
      chunk := file[pos..pos + n];
      pos := pos + n;
    }

    /** Asks for a new block; fails when there is none. */
    method FetchNewBlock() returns (success: bool)
      requires AllValid(blocks) && nextBlock <= |blocks|
      modifies this
      ensures success == (old(nextBlock) < |blocks|)
      ensures !success ==> buffer == "" && nextBlock == old(nextBlock)
      ensures success ==>
                var k := blocks[old(nextBlock)];
                && file == k.file && offset == k.a && pos == k.b && buffer == k.file[k.a..k.b]
                && l == r == 0 && nextBlock == old(nextBlock) + 1
    {
      if nextBlock == |blocks| {
        buffer := "";
        return false;
      }
      var k := blocks[nextBlock];
      file, offset, pos, nextBlock := k.file, k.a, k.b, nextBlock + 1;
      buffer := file[offset..pos];
      l, r := 0, 0;
      return true;
    }

    /** Appends to `lastPart` up to the next newline, fetching as needed, and drops the
        buffer: the rest of it belongs to another block's reader. */
    method HandleNextBlock(ghost start: nat)
      requires start <= pos <= |file| && buffer == file[start..pos] && (buffer == "" ==> pos == |file|)
      modifies this`buffer, this`l, this`r, this`pos, this`lastPart
      ensures buffer == "" && lastPart == old(lastPart) + Line(file, start)
    {
      ghost var f, part := file, lastPart;
      ghost var e := LineEnd(f, start);
      ghost var cur := start;
      while buffer != ""
        invariant start <= cur <= pos <= |f| && buffer == f[cur..pos] && (buffer == "" ==> cur == |f|)
        invariant cur <= e == LineEnd(f, cur)
        invariant lastPart == part + f[start..cur]
        decreases |f| - cur
      {
        r := FindNext(buffer, 0);
        PieceOfLine(part, f, start, cur, pos);
        if r == -1 {
          lastPart := lastPart + buffer;
          cur := pos;
          buffer := FetchNext();
        } else {
          lastPart := lastPart + buffer[..r];
          buffer, l, r := "", 0, 0;
          return;
        }
      }
      assert lastPart == part + f[start..e];
    }

    /** A block is open, and the next thing to do is to read a line in it. */
    ghost predicate Ready(fresh_: bool)
      reads this
    {
      && AllValid(blocks) && nextBlock <= |blocks|
      && offset < pos <= |file| && buffer == file[offset..pos]
      && if fresh_ then r == 0
         else 0 <= r < |buffer| - 1 && buffer[r] == '\n' && (offset == 0 ==> r > 0)
    }

    /** The outcome of that. */
    ghost function Due(fresh_: bool): Outcome
      requires Ready(fresh_)
      reads this
    {
      Take(file, LineStart(fresh_), pos, blocks[nextBlock..])
    }

    /** At the end of a block: the line that starts right after it, or a new block if that is
        the end of the file. */
    method CrossBlockEnd() returns (ok: bool, found: bool, line: string)
      requires AllValid(blocks) && nextBlock <= |blocks| && offset < pos <= |file|
      modifies this
      ensures AllValid(blocks) && nextBlock <= |blocks|
      ensures var o := old(NextAfter(file, pos - 1, pos, blocks[nextBlock..]));
              if !ok then buffer == "" && o == End && nextBlock == |blocks|
              else if found then buffer == "" && Got(line, Idle(blocks[nextBlock..])) == o
              else Ready(true) && Due(true) == o
    {
      ghost var f, b, ks := file, pos, blocks[nextBlock..];
      ok, found, line := true, false, "";
      buffer := FetchNext();
      if buffer == "" {
        ok := FetchNewBlock();
        assert ok ==> blocks[nextBlock..] == ks[1..];
      } else {
        lastPart := "";
        HandleNextBlock(b);
        found, line := true, lastPart;
        assert line == Line(f, b);
      }
    }

    /** The next line, or failure when there are no more. */
    method Next() returns (ok: bool, line: string)
      requires Valid()
      modifies this
      ensures Valid()
      ensures ok == old(Cursor().Next().Got?)
      ensures if ok then Got(line, Cursor()) == old(Cursor().Next()) else Cursor() == Idle([])
    {
      line := "";
      ghost var fresh_ := buffer == "";
      if buffer == "" {
        ghost var ks := blocks[nextBlock..];
        ok := FetchNewBlock();
        if !ok {
          return;
        }
        assert blocks[nextBlock..] == ks[1..];
      }
      if r == |buffer| - 1 {
        var found;
        ok, found, line := CrossBlockEnd();
        if !ok || found {
          return;
        }
        fresh_ := true;
      }
      assert old(Cursor().Next()) == Due(fresh_);
      ok := true;
      line := ReadOn(fresh_);
    }

    method ReadOn(ghost fresh_: bool) returns (line: string)
      requires Ready(fresh_)
      modifies this`buffer, this`l, this`r, this`pos, this`lastPart
      ensures Valid() && Got(line, Cursor()) == old(Due(fresh_))
    {
      line := ReadLine(fresh_);
    }

    /** Where the line to be read starts: in a fresh block, or after the newline at `r`. */
    ghost function LineStart(fresh_: bool): nat
      requires offset < pos <= |file| && (fresh_ || 0 <= r < pos - offset - 1)
      reads this
    {
      if fresh_ then FirstStart(Block(file, offset, pos)) else offset + r + 1
    }

    /** Finds the two ends of the line in the buffer; `r` is -1 if the right one is not there. */
    method LocateLine(ghost fresh_: bool)
      requires offset < pos <= |file| && buffer == file[offset..pos]
      requires if fresh_ then r == 0
               else 0 <= r < |buffer| - 1 && buffer[r] == '\n' && (offset == 0 ==> r > 0)
      modifies this`l, this`r
      ensures 0 <= l <= |buffer| && offset + l == old(LineStart(fresh_))
      ensures r == if LineEnd(file, offset + l) < pos then LineEnd(file, offset + l) - offset else -1
      ensures offset == 0 ==> r != 0
      ensures r >= 0 ==> r < |buffer| && buffer[r] == '\n'
    {
      LocateStart(fresh_);
      LineEndInPiece(file, offset, pos, l);
      r := FindNext(buffer, l);
    }

    method LocateStart(ghost fresh_: bool)
      requires offset < pos <= |file| && buffer == file[offset..pos]
      requires if fresh_ then r == 0
               else 0 <= r < |buffer| - 1 && buffer[r] == '\n' && (offset == 0 ==> r > 0)
      modifies this`l
      ensures 0 <= l <= |buffer| && offset + l == LineStart(fresh_)
      ensures offset == 0 ==> l > 0 || buffer[0] != '\n'
    {
      if offset == 0 && r == 0 {
        l := 0;
        if buffer[0] == '\n' {
          l := 1;
        }
      } else {
        LineEndInPiece(file, offset, pos, r);
        l := FindNext(buffer, r);
        l := l + 1;
      }
    }

    /** Returns the line between the two ends, reading on when the right one is missing. */
    method FinishLine() returns (line: string)
      requires offset < pos <= |file| && buffer == file[offset..pos] && 0 <= l <= |buffer|
      requires r == if LineEnd(file, offset + l) < pos then LineEnd(file, offset + l) - offset else -1
      modifies this`buffer, this`l, this`r, this`pos, this`lastPart
      ensures line == Line(file, offset + old(l))
      ensures if old(r) == -1 then buffer == "" else buffer == old(buffer) && r == old(r) && pos == old(pos)
    {
      ghost var f, b, start := file, pos, offset + l;
      ghost var e := LineEnd(f, start);
      if r == -1 {
        lastPart := buffer[l..];
        SameLineEnd(f, start, b);
        Cut(f, offset, b, l, b - offset);
        assert lastPart == "" + f[start..b];
        buffer := FetchNext();
        HandleNextBlock(b);
        Glue("", f, start, b, e);
        line := lastPart;
      } else {
        Cut(f, offset, b, l, r);
        line := buffer[l..r];
      }
    }

    /** The second half of `next`. */
    method ReadLine(ghost fresh_: bool) returns (line: string)
      requires offset < pos <= |file| && buffer == file[offset..pos]
      requires if fresh_ then r == 0
               else 0 <= r < |buffer| - 1 && buffer[r] == '\n' && (offset == 0 ==> r > 0)
      modifies this`buffer, this`l, this`r, this`pos, this`lastPart
      ensures line == Line(file, old(LineStart(fresh_)))
      ensures var e := LineEnd(file, old(LineStart(fresh_)));
              if e < old(pos) then buffer == old(buffer) && pos == old(pos) && r == e - offset && (offset == 0 ==> r > 0)
              else buffer == ""
    {
      LocateLine(fresh_);
      line := FinishLine();
    }
  }
}
