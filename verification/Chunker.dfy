/** Carving a file into chunks: one Symbol chunk per parsed span, bounded Module chunks over
    the lines no span covers, and overlapping Windows for files without a parser.

    Line numbers are 1-based throughout, as in the program. */
module Chunker {
  import opened ChunkIds
  import opened Utf8

  const MAX_CHUNK_LINES: nat := 200
  const MAX_CHUNK_BYTES: nat := 8 * 1024
  const MAX_LINE_BYTES: nat := 4096
  const WINDOW_LINES: nat := 60
  const WINDOW_OVERLAP: nat := 15
  const STRIDE: nat := WINDOW_LINES - WINDOW_OVERLAP

  datatype ChunkKind = Symbol | Module | Window

  datatype SymbolKind = Function | Struct | Enum | Trait | Class | Interface | TypeAlias | ModuleDecl

  datatype Parameter = Parameter(name: string, typeAnnotation: Option<string>)

  datatype Signature =
    Signature(name: string, parameters: seq<Parameter>, returnType: Option<string>, line: nat, column: nat)

  /** One parsed symbol with the inclusive line range of its syntax node. */
  datatype Span = Span(sig: Signature, kind: SymbolKind, start: nat, end: nat)

  /** An inclusive line range. */
  datatype Range = Range(start: nat, end: nat) {
    predicate Has(line: nat) {
      start <= line <= end
    }
  }

  datatype ChunkSpec =
    ChunkSpec(kind: ChunkKind, range: Range, body: string, symbol: Option<(Signature, SymbolKind)>)

  // ---------------------------------------------------------------------------------------
  // Lines and bodies
  // ---------------------------------------------------------------------------------------

  /** `str::lines`: terminators `\n` and `\r\n` are dropped, a final terminator opens no line. */
  function Lines(content: string): seq<string>
    decreases |content|
  {
    if content == [] then []
    else
      match SplitFirst(content, '\n')
      case None => [content]
      case Some(p) =>
        SplitFirstShrinks(content, '\n');
        [StripCarriageReturn(p.0)] + Lines(p.1)
  }

  function StripCarriageReturn(line: string): string {
    if line != [] && line[|line| - 1] == '\r' then line[..|line| - 1] else line
  }

  lemma {:induction false} SplitFirstShrinks(s: string, sep: char)
    ensures SplitFirst(s, sep).Some? ==> |SplitFirst(s, sep).value.1| < |s|
  {
    if s != [] && s[0] != sep {
      SplitFirstShrinks(s[1..], sep);
    }
  }

  /** Unicode `White_Space`, which `str::trim` strips. */
  predicate IsWhitespace(c: char) {
    var v := c as int;
    || 0x09 <= v <= 0x0D || v == 0x20 || v == 0x85 || v == 0xA0 || v == 0x1680
    || 0x2000 <= v <= 0x200A || v == 0x2028 || v == 0x2029 || v == 0x202F || v == 0x205F
    || v == 0x3000
  }

  /** `line.trim().is_empty()` */
  predicate IsBlank(line: string) {
    forall c :: c in line ==> IsWhitespace(c)
  }

  /** Of ASCII, the space and the characters from tab to carriage return are blank. */
  lemma BlankAscii(line: string)
    requires forall i :: 0 <= i < |line| ==> line[i] as int < 128
    ensures IsBlank(line) <==> forall i :: 0 <= i < |line| ==> line[i] == ' ' || 9 <= line[i] as int <= 13
  {
    if IsBlank(line) {
      forall i | 0 <= i < |line|
        ensures line[i] == ' ' || 9 <= line[i] as int <= 13
      {
        assert line[i] in line;
      }
    }
  }

  /** `[..].join("\n")` */
  function Join(lines: seq<string>): string {
    JoinBetween(lines, 0, |lines|)
  }

  /** The join of lines `i` up to but excluding `j`, counted from 0. */
  function JoinBetween(lines: seq<string>, i: nat, j: nat): string
    requires i <= j <= |lines|
    decreases j - i
  {
    if i == j then []
    else if i + 1 == j then lines[i]
    else lines[i] + "\n" + JoinBetween(lines, i + 1, j)
  }

  lemma {:induction false} JoinShift(lines: seq<string>, from: nat, to: nat, i: nat)
    requires from <= to <= |lines| && i <= to - from
    ensures JoinBetween(lines[from..to], i, to - from) == JoinBetween(lines, from + i, to)
    decreases |lines| - i
  {
    if i < to - from {
      JoinShift(lines, from, to, i + 1);
    }
  }

  lemma JoinSlice(lines: seq<string>, from: nat, to: nat)
    requires from <= to <= |lines|
    ensures JoinBetween(lines, from, to) == Join(lines[from..to])
  {
    JoinShift(lines, from, to, 0);
  }

  lemma JoinHead(lines: seq<string>)
    requires lines != []
    ensures Join(lines) == if |lines| == 1 then lines[0] else lines[0] + "\n" + Join(lines[1..])
  {
    JoinSlice(lines, 1, |lines|);
    assert lines[1..|lines|] == lines[1..];
  }

  lemma {:induction false} JoinConcat(a: seq<string>, b: seq<string>)
    requires a != [] && b != []
    ensures Join(a + b) == Join(a) + "\n" + Join(b)
    ensures |b| == 1 ==> Join(b) == b[0]
  {
    hide Join;
    JoinHead(a);
    JoinHead(b);
    JoinHead(a + b);
    if |a| > 1 {
      JoinConcat(a[1..], b);
      assert (a + b)[1..] == a[1..] + b;
      Regroup(a[0] + "\n", Join(a[1..]), "\n" + Join(b));
    } else {
      assert (a + b)[1..] == b;
    }
  }

  lemma Regroup<T>(a: seq<T>, b: seq<T>, c: seq<T>)
    ensures a + (b + c) == a + b + c
  {
  }

  predicate OneLine(line: string) {
    '\n' !in line
  }

  /** A line ends at the first line feed, with or without a carriage return before it. */
  lemma LinesStep(line: string, rest: string)
    requires OneLine(line)
    ensures Lines(line + "\r\n" + rest) == [line] + Lines(rest)
    ensures line == [] || line[|line| - 1] != '\r' ==> Lines(line + "\n" + rest) == [line] + Lines(rest)
    ensures Lines(line) == if line == [] then [] else [line]
  {
    var returned := line + "\r";
    assert line + "\r\n" + rest == returned + ['\n'] + rest;
    assert returned[..|returned| - 1] == line;
    SplitFirstAt(returned, rest, '\n');
    assert line + "\n" + rest == line + ['\n'] + rest;
    SplitFirstAt(line, rest, '\n');
    NothingToSplit(line, '\n');
  }

  lemma {:induction false} NothingToSplit(s: string, sep: char)
    requires sep !in s
    ensures SplitFirst(s, sep).None?
  {
    if s != [] {
      NothingToSplit(s[1..], sep);
    }
  }

  /** Lines joined by line feeds are read back as they were, unless one ends in a carriage return or the last
      is empty. */
  lemma {:induction false} LinesOfJoin(lines: seq<string>)
    requires forall i :: 0 <= i < |lines| ==> OneLine(lines[i])
    requires forall i :: 0 <= i < |lines| && lines[i] != [] ==> lines[i][|lines[i]| - 1] != '\r'
    requires lines != [] ==> lines[|lines| - 1] != []
    ensures Lines(Join(lines)) == lines
  {
    hide Lines, OneLine;
    if lines == [] {
      LinesStep([], []);
    } else {
      JoinHead(lines);
      LinesStep(lines[0], Join(lines[1..]));
      if |lines| > 1 {
        LinesOfJoin(lines[1..]);
      }
      assert lines == [lines[0]] + lines[1..];
    }
  }

  function JoinRange(lines: seq<string>, range: Range): string {
    var lo := if range.start == 0 then 0 else range.start - 1;
    var hi := if range.end < |lines| then range.end else |lines|;
    if lo >= hi then [] else JoinBetween(lines, lo, hi)
  }

  function Chunk(lines: seq<string>, kind: ChunkKind, range: Range): ChunkSpec {
    ChunkSpec(kind, range, JoinRange(lines, range), None)
  }

  function Chunks(lines: seq<string>, kind: ChunkKind, ranges: seq<Range>): seq<ChunkSpec> {
    seq(|ranges|, i requires 0 <= i < |ranges| => Chunk(lines, kind, ranges[i]))
  }

  lemma ChunksConcat(lines: seq<string>, kind: ChunkKind, a: seq<Range>, b: seq<Range>)
    ensures Chunks(lines, kind, a + b) == Chunks(lines, kind, a) + Chunks(lines, kind, b)
    ensures Chunks(lines, kind, []) == []
  {
  }

  // ---------------------------------------------------------------------------------------
  // Splitting a run of uncovered lines
  // ---------------------------------------------------------------------------------------

  /** Bytes of lines `a` up to but excluding `b`, each counted with its separator. */
  function RunBytes(lines: seq<string>, a: nat, b: nat): nat
    requires 1 <= a && b <= |lines| + 1
    decreases b
  {
    if a >= b then 0 else RunBytes(lines, a, b - 1) + ByteLen(lines[b - 2]) + 1
  }

  /** The last blank line in `a` up to but excluding `b`, or 0. */
  function LastBlank(lines: seq<string>, a: nat, b: nat): (r: nat)
    requires 1 <= a && b <= |lines| + 1
    ensures r == 0 || (a <= r < b && IsBlank(lines[r - 1]))
    ensures forall i :: a - 1 <= i < b - 1 && i >= r ==> !IsBlank(lines[i])
    decreases b
  {
    if a >= b then 0
    else if IsBlank(lines[b - 2]) then b - 1
    else LastBlank(lines, a, b - 1)
  }

  /** Adding `line` to the segment that starts at `seg` would break a cap. */
  predicate Overflows(lines: seq<string>, seg: nat, line: nat)
    requires 1 <= seg <= line <= |lines|
  {
    && seg < line
    && (line - seg + 1 > MAX_CHUNK_LINES || RunBytes(lines, seg, line + 1) > MAX_CHUNK_BYTES)
  }

  /** Where the segment is cut when `line` does not fit: its last blank line, else before `line`. */
  function CutEnd(lines: seq<string>, seg: nat, line: nat): (e: nat)
    requires 1 <= seg < line <= |lines|
    ensures seg <= e < line
  {
    var blank := LastBlank(lines, seg, line);
    if blank >= seg then blank else line - 1
  }

  /** The segments produced from `line` on, when the open segment starts at `seg`. */
  function Cuts(lines: seq<string>, seg: nat, line: nat, runEnd: nat): seq<Range>
    requires 1 <= seg <= line <= runEnd + 1 <= |lines| + 1
    decreases runEnd + 1 - line
  {
    if line > runEnd then
      if seg < line then [Range(seg, runEnd)] else []
    else if Overflows(lines, seg, line) then
      var e := CutEnd(lines, seg, line);
      [Range(seg, e)] + Cuts(lines, e + 1, line + 1, runEnd)
    else
      Cuts(lines, seg, line + 1, runEnd)
  }

  /** Consecutive non-empty ranges that together are exactly `from` to `to`. */
  predicate Tiles(ranges: seq<Range>, from: nat, to: nat)
    decreases |ranges|
  {
    if from > to then ranges == []
    else
      && ranges != []
      && ranges[0].start == from <= ranges[0].end <= to
      && Tiles(ranges[1..], ranges[0].end + 1, to)
  }

  lemma {:induction false} CutsTile(lines: seq<string>, seg: nat, line: nat, runEnd: nat)
    requires 1 <= seg <= line <= runEnd + 1 <= |lines| + 1
    ensures Tiles(Cuts(lines, seg, line, runEnd), seg, runEnd)
    decreases runEnd + 1 - line
  {
    if line <= runEnd {
      if Overflows(lines, seg, line) {
        CutsTile(lines, CutEnd(lines, seg, line) + 1, line + 1, runEnd);
      } else {
        CutsTile(lines, seg, line + 1, runEnd);
      }
    }
  }

  lemma {:induction false} RunBytesSplit(lines: seq<string>, a: nat, m: nat, b: nat)
    requires 1 <= a <= m <= b <= |lines| + 1
    ensures RunBytes(lines, a, b) == RunBytes(lines, a, m) + RunBytes(lines, m, b)
    ensures RunBytes(lines, a, m) >= m - a
    decreases b
  {
    if m < b {
      RunBytesSplit(lines, a, m, b - 1);
    } else if a < m {
      RunBytesSplit(lines, a, m - 1, m - 1);
    }
  }

  /** The segment starting at `seg` was opened by a cut at a blank line. */
  predicate AfterBlankCut(lines: seq<string>, runStart: nat, seg: nat) {
    runStart < seg <= |lines| + 1 && 2 <= seg && IsBlank(lines[seg - 2])
  }

  /** What the accumulator guarantees about the open segment before each line: it is within
      both caps, or only its last line breaks the byte cap, no earlier line is blank, and it
      holds a single line or was opened by a cut at a blank line. */
  predicate Accounted(lines: seq<string>, runStart: nat, seg: nat, line: nat)
    requires 1 <= seg <= line <= |lines| + 1
  {
    seg < line ==>
      && line - seg <= MAX_CHUNK_LINES
      && (|| RunBytes(lines, seg, line) <= MAX_CHUNK_BYTES
          || (&& RunBytes(lines, seg, line - 1) < MAX_CHUNK_BYTES
              && LastBlank(lines, seg, line - 1) == 0
              && (seg + 1 < line ==> AfterBlankCut(lines, runStart, seg))))
  }

  /** The caps a module chunk respects. Its body may pass the byte cap, but by less than its
      own last line, and only when no line before that last one is blank and the chunk is a
      single line or follows a cut at a blank line. */
  predicate WithinCaps(lines: seq<string>, runStart: nat, r: Range)
    requires 1 <= r.start <= r.end <= |lines|
  {
    && r.end - r.start + 1 <= MAX_CHUNK_LINES
    && RunBytes(lines, r.start, r.end + 1) - 1 < MAX_CHUNK_BYTES + ByteLen(lines[r.end - 1])
    && (RunBytes(lines, r.start, r.end + 1) > MAX_CHUNK_BYTES ==>
          && LastBlank(lines, r.start, r.end) == 0
          && (r.start < r.end ==> AfterBlankCut(lines, runStart, r.start)))
  }

  lemma AccountedStep(lines: seq<string>, runStart: nat, seg: nat, line: nat)
    requires 1 <= seg <= line <= |lines| && runStart <= seg && Accounted(lines, runStart, seg, line)
    ensures !Overflows(lines, seg, line) ==> Accounted(lines, runStart, seg, line + 1)
    ensures Overflows(lines, seg, line) ==>
              var e := CutEnd(lines, seg, line);
              Accounted(lines, runStart, e + 1, line + 1) && WithinCaps(lines, runStart, Range(seg, e))
  {
    hide ByteLen, IsBlank;
    if Overflows(lines, seg, line) {
      var e := CutEnd(lines, seg, line);
      RunBytesSplit(lines, seg, e + 1, line);
      if e < line - 1 {
        assert RunBytes(lines, seg, line) <= MAX_CHUNK_BYTES;
        RunBytesSplit(lines, seg, seg, e + 1);
        assert RunBytes(lines, e + 1, line) < MAX_CHUNK_BYTES;
      }
    }
  }

  lemma AccountedWithinCaps(lines: seq<string>, runStart: nat, seg: nat, line: nat)
    requires 1 <= seg < line <= |lines| + 1 && Accounted(lines, runStart, seg, line)
    ensures WithinCaps(lines, runStart, Range(seg, line - 1))
  {
  }

  /** Every segment is within the caps. */
  lemma {:induction false} CutsWithinCaps(lines: seq<string>, runStart: nat, seg: nat, line: nat, runEnd: nat)
    requires 1 <= seg <= line <= runEnd + 1 <= |lines| + 1
    requires runStart <= seg && Accounted(lines, runStart, seg, line)
    ensures forall r :: r in Cuts(lines, seg, line, runEnd) ==>
              1 <= r.start <= r.end <= |lines| && WithinCaps(lines, runStart, r)
    decreases runEnd + 1 - line
  {
    hide Accounted, WithinCaps;
    if line <= runEnd {
      AccountedStep(lines, runStart, seg, line);
      if Overflows(lines, seg, line) {
        CutsWithinCaps(lines, runStart, CutEnd(lines, seg, line) + 1, line + 1, runEnd);
      } else {
        CutsWithinCaps(lines, runStart, seg, line + 1, runEnd);
      }
    } else if seg < line {
      AccountedWithinCaps(lines, runStart, seg, line);
    }
  }

  /** `line` does not fit into the segment that starts with `r`, for the 200 lines or the 8192 bytes the joined
      segment would have (with a final line feed), and `r` ends at its last blank line before `line`,
      or just before `line` when it has none. */
  predicate ForcedBy(lines: seq<string>, r: Range, line: nat)
    requires 1 <= r.start <= r.end < line <= |lines|
  {
    && (line - r.start + 1 > 200 || ByteLen(Join(lines[r.start - 1..line])) + 1 > 8192)
    && (|| (IsBlank(lines[r.end - 1]) && forall i :: r.end <= i < line - 1 ==> !IsBlank(lines[i]))
        || (r.end == line - 1 && forall i :: r.start - 1 <= i < line - 1 ==> !IsBlank(lines[i])))
  }

  /** A cut was forced by some later line of the run. */
  predicate Forced(lines: seq<string>, r: Range, runEnd: nat) {
    exists line :: 1 <= r.start <= r.end < line <= runEnd <= |lines| && ForcedBy(lines, r, line)
  }

  lemma CutIsForced(lines: seq<string>, seg: nat, line: nat)
    requires 1 <= seg <= line <= |lines| && Overflows(lines, seg, line)
    ensures ForcedBy(lines, Range(seg, CutEnd(lines, seg, line)), line)
  {
    hide ByteLen, Join, IsBlank;
    JoinBytes(lines, seg, line);
  }

  lemma {:induction false} CutsForced(lines: seq<string>, seg: nat, line: nat, runEnd: nat)
    requires 1 <= seg <= line <= runEnd + 1 <= |lines| + 1
    ensures forall r :: r in Cuts(lines, seg, line, runEnd) && r.end != runEnd ==> Forced(lines, r, runEnd)
    decreases runEnd + 1 - line
  {
    hide ForcedBy, ByteLen, Join, IsBlank, Overflows, CutEnd;
    if line <= runEnd {
      if Overflows(lines, seg, line) {
        CutIsForced(lines, seg, line);
        CutsForced(lines, CutEnd(lines, seg, line) + 1, line + 1, runEnd);
      } else {
        CutsForced(lines, seg, line + 1, runEnd);
      }
    }
  }

  function CutChunks(lines: seq<string>, seg: nat, line: nat, runEnd: nat): seq<ChunkSpec>
    requires 1 <= seg <= line <= runEnd + 1 <= |lines| + 1
  {
    Chunks(lines, Module, Cuts(lines, seg, line, runEnd))
  }

  lemma CutChunksStep(lines: seq<string>, seg: nat, line: nat, runEnd: nat)
    requires 1 <= seg <= line <= runEnd <= |lines|
    ensures if Overflows(lines, seg, line)
            then var e := CutEnd(lines, seg, line);
                 CutChunks(lines, seg, line, runEnd)
                 == [Chunk(lines, Module, Range(seg, e))] + CutChunks(lines, e + 1, line + 1, runEnd)
            else CutChunks(lines, seg, line, runEnd) == CutChunks(lines, seg, line + 1, runEnd)
  {
    hide JoinRange, RunBytes, LastBlank;
    if Overflows(lines, seg, line) {
      var e := CutEnd(lines, seg, line);
      ChunksConcat(lines, Module, [Range(seg, e)], Cuts(lines, e + 1, line + 1, runEnd));
    }
  }

  lemma CutChunksEnd(lines: seq<string>, seg: nat, runEnd: nat)
    requires 1 <= seg <= runEnd + 1 <= |lines| + 1
    ensures CutChunks(lines, seg, runEnd + 1, runEnd) ==
            if seg <= runEnd then [Chunk(lines, Module, Range(seg, runEnd))] else []
  {
    hide JoinRange;
  }

  /** Splits one run into module chunks, keeping the counters the program keeps. */
  method SplitModuleRun(lines: seq<string>, runStart: nat, runEnd: nat, chunks: seq<ChunkSpec>)
    returns (out: seq<ChunkSpec>)
    requires 1 <= runStart <= runEnd <= |lines|
    ensures out == chunks + CutChunks(lines, runStart, runStart, runEnd)
  {
    hide ByteLen, IsBlank, Chunk, CutChunks;
    out := chunks;
    var segStart, lineCount, byteCount, lastBlank := runStart, 0, 0, 0;
    for line := runStart to runEnd + 1
      invariant runStart <= segStart <= line
      invariant lineCount == line - segStart
      invariant byteCount == RunBytes(lines, segStart, line)
      invariant lastBlank == LastBlank(lines, segStart, line)
      invariant out + CutChunks(lines, segStart, line, runEnd) == chunks + CutChunks(lines, runStart, runStart, runEnd)
    {
      var text := lines[line - 1];
      var added := ByteLen(text) + 1;
      CutChunksStep(lines, segStart, line, runEnd);
      if lineCount > 0 && (lineCount + 1 > MAX_CHUNK_LINES || byteCount + added > MAX_CHUNK_BYTES) {
        var segEnd := if lastBlank >= segStart then lastBlank else line - 1;
        assert Overflows(lines, segStart, line) && segEnd == CutEnd(lines, segStart, line);
        out := PushModuleChunk(lines, Range(segStart, segEnd), out);
        segStart := segEnd + 1;
        lineCount, byteCount, lastBlank := Reaccount(lines, segStart, line);
      }
      lineCount := lineCount + 1;
      byteCount := byteCount + added;
      if IsBlank(text) {
        lastBlank := line;
      }
    }
    CutChunksEnd(lines, segStart, runEnd);
    if lineCount > 0 {
      out := PushModuleChunk(lines, Range(segStart, runEnd), out);
    }
  }

  /** Counts again what the cut left over: the lines from `segStart` up to but excluding `line`. */
  method Reaccount(lines: seq<string>, segStart: nat, line: nat)
    returns (lineCount: nat, byteCount: nat, lastBlank: nat)
    requires 1 <= segStart <= line <= |lines|
    ensures lineCount == line - segStart
    ensures byteCount == RunBytes(lines, segStart, line)
    ensures lastBlank == LastBlank(lines, segStart, line)
  {
    lineCount, byteCount, lastBlank := 0, 0, 0;
    for back := segStart to line
      invariant lineCount == back - segStart
      invariant byteCount == RunBytes(lines, segStart, back)
      invariant lastBlank == LastBlank(lines, segStart, back)
    {
      lineCount := lineCount + 1;
      byteCount := byteCount + ByteLen(lines[back - 1]) + 1;
      if IsBlank(lines[back - 1]) {
        lastBlank := back;
      }
    }
  }

  method PushModuleChunk(lines: seq<string>, range: Range, chunks: seq<ChunkSpec>)
    returns (out: seq<ChunkSpec>)
    ensures out == chunks + [Chunk(lines, Module, range)]
  {
    out := chunks + [Chunk(lines, Module, range)];
  }

  /** The body of a range has one byte less than the accounting says. */
  lemma BodyBytes(lines: seq<string>, r: Range)
    requires 1 <= r.start <= r.end <= |lines|
    ensures ByteLen(JoinRange(lines, r)) == RunBytes(lines, r.start, r.end + 1) - 1
  {
    hide ByteLen, Join, RunBytes;
    JoinBytes(lines, r.start, r.end);
    JoinSlice(lines, r.start - 1, r.end);
  }

  lemma {:induction false} JoinBytes(lines: seq<string>, a: nat, b: nat)
    requires 1 <= a <= b <= |lines|
    ensures ByteLen(Join(lines[a - 1..b])) == RunBytes(lines, a, b + 1) - 1
    decreases b - a
  {
    hide Join;
    var part := lines[a - 1..b];
    JoinHead(part);
    RunBytesSplit(lines, a, a + 1, b + 1);
    if a < b {
      assert part[1..] == lines[a..b];
      JoinBytes(lines, a + 1, b);
      ByteLenAppend(lines[a - 1] + "\n", Join(lines[a..b]));
      ByteLenAppend(lines[a - 1], "\n");
      assert ByteLen("\n") == 1;
    }
  }

  /** The caps of a module chunk of a run: at most 200 lines, fewer than 8192 bytes plus its last line, and a
      body that reaches 8192 bytes has no blank line before its last one and is a single line or follows a
      cut at a blank line. */
  predicate Capped(lines: seq<string>, runStart: nat, r: Range)
    requires 1 <= runStart
  {
    && 1 <= r.start <= r.end <= |lines|
    && r.end - r.start + 1 <= 200
    && var bytes := ByteLen(Join(lines[r.start - 1..r.end]));
       && bytes < 8192 + ByteLen(lines[r.end - 1])
       && (bytes >= 8192 ==>
             && (forall i :: r.start - 1 <= i < r.end - 1 ==> !IsBlank(lines[i]))
             && (r.start < r.end ==> r.start > runStart && IsBlank(lines[r.start - 2])))
  }

  lemma CappedWithin(lines: seq<string>, runStart: nat, r: Range)
    requires 1 <= runStart && 1 <= r.start <= r.end <= |lines| && WithinCaps(lines, runStart, r)
    ensures Capped(lines, runStart, r)
  {
    hide ByteLen, IsBlank, Join;
    JoinBytes(lines, r.start, r.end);
  }

  /** The splitter's promise for any run: the chunks tile the run, respect the caps, and every cut was forced. */
  lemma SplitBounds(lines: seq<string>, runStart: nat, runEnd: nat)
    requires 1 <= runStart <= runEnd <= |lines|
    ensures var cuts := Cuts(lines, runStart, runStart, runEnd);
            && Tiles(cuts, runStart, runEnd)
            && (forall r :: r in cuts ==> Capped(lines, runStart, r))
            && (forall r :: r in cuts && r.end != runEnd ==> Forced(lines, r, runEnd))
  {
    hide Cuts, Tiles, Forced, Capped, WithinCaps;
    CutsTile(lines, runStart, runStart, runEnd);
    StartAccounted(lines, runStart);
    CutsWithinCaps(lines, runStart, runStart, runStart, runEnd);
    CutsForced(lines, runStart, runStart, runEnd);
    forall r | r in Cuts(lines, runStart, runStart, runEnd)
      ensures Capped(lines, runStart, r)
    {
      CappedWithin(lines, runStart, r);
    }
  }

  lemma StartAccounted(lines: seq<string>, runStart: nat)
    requires 1 <= runStart <= |lines| + 1
    ensures Accounted(lines, runStart, runStart, runStart)
  {
  }

  /** The check the splitter leaves out: after a cut, whether the rest and the current line together
      pass the byte cap. A first line that passes it alone counts too. */
  predicate Overshoots(lines: seq<string>, seg: nat, line: nat, runEnd: nat)
    requires 1 <= seg <= line <= runEnd + 1 <= |lines| + 1
    decreases runEnd + 1 - line
  {
    line <= runEnd &&
    if Overflows(lines, seg, line) then
      var e := CutEnd(lines, seg, line);
      RunBytes(lines, e + 1, line + 1) > MAX_CHUNK_BYTES || Overshoots(lines, e + 1, line + 1, runEnd)
    else
      (seg == line && RunBytes(lines, line, line + 1) > MAX_CHUNK_BYTES) || Overshoots(lines, seg, line + 1, runEnd)
  }

  predicate OverCap(lines: seq<string>, r: Range) {
    1 <= r.start <= r.end <= |lines| && RunBytes(lines, r.start, r.end + 1) > MAX_CHUNK_BYTES
  }

  predicate SomeOverCap(lines: seq<string>, cuts: seq<Range>) {
    exists k :: 0 <= k < |cuts| && OverCap(lines, cuts[k])
  }

  lemma SomeOverCapCons(lines: seq<string>, r: Range, cuts: seq<Range>)
    ensures SomeOverCap(lines, [r] + cuts) <==> OverCap(lines, r) || SomeOverCap(lines, cuts)
    ensures !SomeOverCap(lines, [])
  {
    var all := [r] + cuts;
    assert all[0] == r;
    if SomeOverCap(lines, cuts) {
      var k :| 0 <= k < |cuts| && OverCap(lines, cuts[k]);
      assert all[k + 1] == cuts[k];
    }
  }

  /** A cut takes the open segment over the cap exactly when it is over the cap before the line that
      forced the cut: then no line but its last is blank, and all of it is cut off. */
  lemma CutOverCap(lines: seq<string>, runStart: nat, seg: nat, line: nat)
    requires 1 <= seg < line <= |lines| && Accounted(lines, runStart, seg, line)
    ensures OverCap(lines, Range(seg, CutEnd(lines, seg, line))) <==> RunBytes(lines, seg, line) > MAX_CHUNK_BYTES
  {
    hide ByteLen, IsBlank;
    var e := CutEnd(lines, seg, line);
    if RunBytes(lines, seg, line) > MAX_CHUNK_BYTES {
      assert LastBlank(lines, seg, line - 1) == 0;
      assert e == line - 1;
    } else {
      RunBytesSplit(lines, seg, e + 1, line);
    }
  }

  lemma {:induction false} OverCapIff(lines: seq<string>, runStart: nat, seg: nat, line: nat, runEnd: nat)
    requires 1 <= seg <= line <= runEnd + 1 <= |lines| + 1
    requires runStart <= seg && Accounted(lines, runStart, seg, line)
    ensures SomeOverCap(lines, Cuts(lines, seg, line, runEnd)) <==>
            RunBytes(lines, seg, line) > MAX_CHUNK_BYTES || Overshoots(lines, seg, line, runEnd)
    decreases runEnd + 1 - line
  {
    hide Accounted, SomeOverCap, CutEnd;
    if line > runEnd {
      SomeOverCapCons(lines, Range(seg, runEnd), []);
      assert [Range(seg, runEnd)] + [] == [Range(seg, runEnd)];
    } else {
      AccountedStep(lines, runStart, seg, line);
      if Overflows(lines, seg, line) {
        var e := CutEnd(lines, seg, line);
        CutOverCap(lines, runStart, seg, line);
        OverCapIff(lines, runStart, e + 1, line + 1, runEnd);
        SomeOverCapCons(lines, Range(seg, e), Cuts(lines, e + 1, line + 1, runEnd));
      } else {
        OverCapIff(lines, runStart, seg, line + 1, runEnd);
      }
    }
  }

  /** The byte cap holds for every chunk of a run exactly when no cut leaves a rest that passes it
      together with the line that forced the cut. */
  lemma CapHoldsIff(lines: seq<string>, runStart: nat, runEnd: nat)
    requires 1 <= runStart <= runEnd <= |lines|
    ensures (forall r :: r in Cuts(lines, runStart, runStart, runEnd) ==> ByteLen(JoinRange(lines, r)) < MAX_CHUNK_BYTES)
            <==> !Overshoots(lines, runStart, runStart, runEnd)
  {
    hide ByteLen, JoinRange, Cuts, Overshoots, WithinCaps;
    var cuts := Cuts(lines, runStart, runStart, runEnd);
    OverCapIff(lines, runStart, runStart, runStart, runEnd);
    CutsWithinCaps(lines, runStart, runStart, runStart, runEnd);
    forall r | r in cuts
      ensures ByteLen(JoinRange(lines, r)) < MAX_CHUNK_BYTES <==> !OverCap(lines, r)
    {
      BodyBytes(lines, r);
    }
    assert SomeOverCap(lines, cuts) <==> exists r :: r in cuts && OverCap(lines, r);
  }

  /** Of the lines the walker admits, a run without a blank line never passes the cap. */
  lemma {:induction false} NoBlankNoOvershoot(lines: seq<string>, seg: nat, line: nat, runEnd: nat)
    requires 1 <= seg <= line <= runEnd + 1 <= |lines| + 1
    requires forall i :: seg - 1 <= i < runEnd ==> !IsBlank(lines[i]) && ByteLen(lines[i]) <= MAX_LINE_BYTES
    ensures !Overshoots(lines, seg, line, runEnd)
    decreases runEnd + 1 - line
  {
    hide ByteLen, IsBlank;
    if line <= runEnd {
      RunBytesSplit(lines, line, line, line + 1);
      assert RunBytes(lines, line, line + 1) == ByteLen(lines[line - 1]) + 1;
      if Overflows(lines, seg, line) {
        NoBlankNoOvershoot(lines, CutEnd(lines, seg, line) + 1, line + 1, runEnd);
      } else {
        NoBlankNoOvershoot(lines, seg, line + 1, runEnd);
      }
    }
  }

  /** For a file the walker admits no chunk body reaches 8192 + 4096 bytes. */
  lemma WalkedFileBound(lines: seq<string>, runStart: nat, runEnd: nat, r: Range)
    requires 1 <= runStart <= runEnd <= |lines|
    requires forall line :: line in lines ==> ByteLen(line) <= MAX_LINE_BYTES
    requires r in Cuts(lines, runStart, runStart, runEnd)
    ensures ByteLen(JoinRange(lines, r)) < 8192 + 4096
  {
    hide ByteLen, Join, Cuts, Tiles, IsBlank;
    SplitBounds(lines, runStart, runEnd);
    assert Capped(lines, runStart, r);
    JoinSlice(lines, r.start - 1, r.end);
    assert lines[r.end - 1] in lines;
  }

  lemma {:induction false} RepeatedBytes(n: nat)
    ensures ByteLen(seq(n, _ => 'a')) == n
  {
    if n > 0 {
      assert seq(n, _ => 'a')[1..] == seq(n - 1, _ => 'a');
      RepeatedBytes(n - 1);
    }
  }

  /** The byte cap itself is not a bound: after a cut at a blank line the current line joins
      the re-accounted rest unchecked. Four lines the walker admits give a 12002-byte body. */
  lemma ByteCapIsExceeded()
    ensures exists lines: seq<string>, r ::
              && |lines| == 4 && (forall line :: line in lines ==> ByteLen(line) <= MAX_LINE_BYTES)
              && r in Cuts(lines, 1, 1, 4) && ByteLen(JoinRange(lines, r)) == 12002
  {
    var long := seq(4000, _ => 'a');
    RepeatedBytes(4000);
    var lines := [[], long, long, long];
    assert !IsBlank(long) by {
      assert long[0] == 'a' && !IsWhitespace('a');
    }
    assert ByteLen(lines[0]) == 0;
    assert RunBytes(lines, 1, 2) == 1;
    assert RunBytes(lines, 1, 3) == 4002;
    assert RunBytes(lines, 1, 4) == 8003;
    assert RunBytes(lines, 1, 5) == 12004;
    assert LastBlank(lines, 1, 4) == 1;
    assert Cuts(lines, 1, 1, 4) == Cuts(lines, 1, 4, 4) by {
      assert Cuts(lines, 1, 2, 4) == Cuts(lines, 1, 3, 4);
    }
    assert Cuts(lines, 2, 5, 4) == [Range(2, 4)];
    assert Cuts(lines, 1, 4, 4)[1] == Range(2, 4);
    RunBytesSplit(lines, 1, 2, 5);
    BodyBytes(lines, Range(2, 4));
  }

  // ---------------------------------------------------------------------------------------
  // Parsed files
  // ---------------------------------------------------------------------------------------

  /** What the parser owes the chunker: a span starts inside the file. */
  predicate ParserContract(spans: seq<Span>, total: nat) {
    forall i :: 0 <= i < |spans| ==> 1 <= total && spans[i].start <= total
  }

  /** A span's range clamped to the file. */
  function Clamp(span: Span, total: nat): Range {
    var start := if span.start < 1 then 1 else span.start;
    var end := if span.end < total then span.end else total;
    Range(start, if end < start then start else end)
  }

  /** The clamp keeps a span inside the file exactly when it starts there: the parser's contract. */
  lemma ClampStaysInside(span: Span, total: nat)
    ensures Clamp(span, total).end <= total <==> 1 <= total && span.start <= total
    ensures 1 <= Clamp(span, total).start <= Clamp(span, total).end
  {
  }

  predicate SeenBefore(spans: seq<Span>, total: nat, n: nat)
    requires n < |spans|
  {
    exists i :: 0 <= i < n && Clamp(spans[i], total) == Clamp(spans[n], total)
  }

  /** Symbol chunks of the first `n` spans; of spans with equal ranges the first wins. */
  function SymbolChunks(lines: seq<string>, spans: seq<Span>, n: nat): seq<ChunkSpec>
    requires n <= |spans|
  {
    if n == 0 then []
    else if SeenBefore(spans, |lines|, n - 1) then SymbolChunks(lines, spans, n - 1)
    else SymbolChunks(lines, spans, n - 1) + [SymbolChunk(lines, spans[n - 1])]
  }

  function SymbolChunk(lines: seq<string>, span: Span): ChunkSpec {
    var r := Clamp(span, |lines|);
    ChunkSpec(Symbol, r, JoinRange(lines, r), Some((span.sig, span.kind)))
  }

  predicate Covered(spans: seq<Span>, total: nat, line: nat) {
    exists i :: 0 <= i < |spans| && Clamp(spans[i], total).Has(line)
  }

  /** Module ranges produced from `line` on, when the open run starts at `runStart` (0: none). */
  function ModuleRanges(lines: seq<string>, covered: seq<bool>, line: nat, runStart: nat): seq<Range>
    requires 1 <= line <= |covered| == |lines| + 1 && runStart < line
    decreases |covered| - line
  {
    if line == |covered| then []
    else
      var start := if !covered[line] && runStart == 0 then line else runStart;
      if start != 0 && (covered[line] || line == |lines|) then
        var end := if covered[line] then line - 1 else line;
        Cuts(lines, start, start, end) + ModuleRanges(lines, covered, line + 1, 0)
      else
        ModuleRanges(lines, covered, line + 1, start)
  }

  function CoverMap(spans: seq<Span>, total: nat): seq<bool> {
    seq(total + 1, line requires line >= 0 => Covered(spans, total, line))
  }

  /** The chunks of a parsed file. */
  function ParsedChunks(lines: seq<string>, spans: seq<Span>): seq<ChunkSpec> {
    SymbolChunks(lines, spans, |spans|)
    + Chunks(lines, Module, ModuleRanges(lines, CoverMap(spans, |lines|), 1, 0))
  }

  method ChunkParsed(lines: seq<string>, spans: seq<Span>) returns (chunks: seq<ChunkSpec>)
    requires ParserContract(spans, |lines|)
    ensures chunks == ParsedChunks(lines, spans)
  {
    var covered := new bool[|lines| + 1](_ => false);
    chunks := EmitSymbols(lines, spans, covered);
    chunks := EmitModules(lines, covered, chunks);
  }

  /** The clamped ranges of the first `n` spans. */
  function SeenRanges(spans: seq<Span>, total: nat, n: nat): set<Range>
    requires n <= |spans|
  {
    set i | 0 <= i < n :: Clamp(spans[i], total)
  }

  lemma SeenNext(spans: seq<Span>, total: nat, n: nat)
    requires n < |spans|
    ensures SeenBefore(spans, total, n) <==> Clamp(spans[n], total) in SeenRanges(spans, total, n)
    ensures SeenRanges(spans, total, n + 1) == SeenRanges(spans, total, n) + {Clamp(spans[n], total)}
  {
    hide Clamp;
  }

  /** Covering one more span marks its lines, and a repeated range marks nothing new. */
  lemma CoverNext(spans: seq<Span>, total: nat, n: nat, line: nat)
    requires n < |spans| && line <= total
    ensures CoverMap(spans[..n + 1], total)[line] == (CoverMap(spans[..n], total)[line] || Clamp(spans[n], total).Has(line))
    ensures SeenBefore(spans, total, n) ==> CoverMap(spans[..n + 1], total)[line] == CoverMap(spans[..n], total)[line]
  {
    hide Clamp;
    CoveredExtend(spans, total, n, line);
    if SeenBefore(spans, total, n) {
      var i :| 0 <= i < n && Clamp(spans[i], total) == Clamp(spans[n], total);
      assert spans[..n][i] == spans[i];
    }
  }

  lemma NothingCovered(total: nat)
    ensures CoverMap([], total) == seq(total + 1, _ => false)
  {
  }

  /** First loop: symbol chunks, and every line a span covers is marked. */
  method EmitSymbols(lines: seq<string>, spans: seq<Span>, covered: array<bool>)
    returns (chunks: seq<ChunkSpec>)
    requires ParserContract(spans, |lines|)
    requires covered.Length == |lines| + 1 && forall l :: 0 <= l <= |lines| ==> !covered[l]
    modifies covered
    ensures chunks == SymbolChunks(lines, spans, |spans|)
    ensures covered[..] == CoverMap(spans, |lines|)
  {
    hide Covered, SeenBefore, JoinRange;
    var total := |lines|;
    var seenRanges: set<Range> := {};
    assert SeenRanges(spans, total, 0) == {};
    chunks := [];
    NothingCovered(total);
    assert spans[..0] == [];
    for n := 0 to |spans|
      invariant chunks == SymbolChunks(lines, spans, n)
      invariant seenRanges == SeenRanges(spans, total, n)
      invariant covered[..] == CoverMap(spans[..n], total)
    {
      var range := Clamp(spans[n], total);
      SeenNext(spans, total, n);
      forall l | 0 <= l <= total
        ensures CoverMap(spans[..n + 1], total)[l] == (covered[l] || range.Has(l))
        ensures SeenBefore(spans, total, n) ==> CoverMap(spans[..n + 1], total)[l] == covered[l]
      {
        CoverNext(spans, total, n, l);
        assert covered[l] == covered[..][l];
      }
      if range !in seenRanges {
        seenRanges := seenRanges + {range};
        MarkLines(covered, range);
        chunks := chunks + [SymbolChunk(lines, spans[n])];
      } else {
        assert seenRanges + {range} == seenRanges;
      }
    }
    assert spans[..|spans|] == spans;
  }

  method MarkLines(covered: array<bool>, range: Range)
    requires range.start <= range.end < covered.Length
    modifies covered
    ensures forall l :: 0 <= l < covered.Length ==> covered[l] == (old(covered[l]) || range.Has(l))
  {
    for l := range.start to range.end + 1
      invariant forall m :: 0 <= m < covered.Length ==>
                  covered[m] == (old(covered[m]) || range.start <= m < l)
    {
      covered[l] := true;
    }
  }

  /** Second loop: each maximal run of uncovered lines is split into module chunks. */
  method EmitModules(lines: seq<string>, covered: array<bool>, symbols: seq<ChunkSpec>)
    returns (chunks: seq<ChunkSpec>)
    requires covered.Length == |lines| + 1
    ensures chunks == symbols + Chunks(lines, Module, ModuleRanges(lines, covered[..], 1, 0))
  {
    hide Chunk, Cuts;
    var total := |lines|;
    chunks := symbols;
    ghost var cover := covered[..];
    ghost var done: seq<Range> := [];
    var runStart := 0;
    for line := 1 to total + 1
      invariant runStart < line
      invariant line == total + 1 ==> runStart == 0
      invariant chunks == symbols + Chunks(lines, Module, done)
      invariant ModuleRanges(lines, cover, 1, 0) == done + ModuleRanges(lines, cover, line, runStart)
    {
      var uncovered := !covered[line];
      ghost var rest := ModuleRanges(lines, cover, line, runStart);
      if uncovered && runStart == 0 {
        runStart := line;
      }
      if runStart != 0 && (!uncovered || line == total) {
        var runEnd := if uncovered then line else line - 1;
        chunks := SplitModuleRun(lines, runStart, runEnd, chunks);
        ghost var cuts := Cuts(lines, runStart, runStart, runEnd);
        assert rest == cuts + ModuleRanges(lines, cover, line + 1, 0);
        assert Chunks(lines, Module, done + cuts) == Chunks(lines, Module, done) + Chunks(lines, Module, cuts);
        done := done + cuts;
        runStart := 0;
      }
    }
  }

  lemma CoveredExtend(spans: seq<Span>, total: nat, n: nat, line: nat)
    requires n < |spans|
    ensures Covered(spans[..n + 1], total, line)
       <==> Covered(spans[..n], total, line) || Clamp(spans[n], total).Has(line)
  {
    if Covered(spans[..n], total, line) {
      var i :| 0 <= i < n && Clamp(spans[..n][i], total).Has(line);
      assert spans[..n + 1][i] == spans[i];
    }
    if Covered(spans[..n + 1], total, line) {
      var i :| 0 <= i < n + 1 && Clamp(spans[..n + 1][i], total).Has(line);
      assert i < n ==> spans[..n][i] == spans[i];
    }
    assert spans[..n + 1][n] == spans[n];
  }

  /** Ranges in increasing order without overlap, all at or after `from` and up to `to`. */
  predicate Ascending(ranges: seq<Range>, from: nat, to: nat)
    decreases |ranges|
  {
    ranges != [] ==>
      && from <= ranges[0].start <= ranges[0].end <= to
      && Ascending(ranges[1..], ranges[0].end + 1, to)
  }

  predicate Within(ranges: seq<Range>, line: nat) {
    exists i :: 0 <= i < |ranges| && ranges[i].Has(line)
  }

  lemma {:induction false} AscendingIndexed(ranges: seq<Range>, from: nat, to: nat, i: nat, j: nat)
    requires Ascending(ranges, from, to) && i <= j < |ranges|
    ensures from <= ranges[i].start <= ranges[i].end <= to
    ensures i < j ==> ranges[i].end < ranges[j].start
    decreases j
  {
    if j > 0 {
      AscendingIndexed(ranges[1..], ranges[0].end + 1, to, if i > 0 then i - 1 else 0, j - 1);
      if i == 0 {
        AscendingIndexed(ranges[1..], ranges[0].end + 1, to, j - 1, j - 1);
      }
    }
  }

  lemma {:induction false} AscendingConcat(a: seq<Range>, b: seq<Range>, from: nat, mid: nat, to: nat)
    requires Ascending(a, from, mid) && Ascending(b, mid + 1, to) && from <= mid + 1 && mid <= to
    ensures Ascending(a + b, from, to)
    decreases |a|
  {
    if a == [] {
      assert a + b == b;
      AscendingWiden(b, mid + 1, from, to, to);
    } else {
      AscendingConcat(a[1..], b, a[0].end + 1, mid, to);
      assert (a + b)[1..] == a[1..] + b;
    }
  }

  lemma AscendingWiden(a: seq<Range>, from: nat, from': nat, to: nat, to': nat)
    requires Ascending(a, from, to) && from' <= from && to <= to'
    ensures Ascending(a, from', to')
    decreases |a|
  {
    if a != [] {
      AscendingWiden(a[1..], a[0].end + 1, a[0].end + 1, to, to');
    }
  }

  lemma {:induction false} TilesAscend(ranges: seq<Range>, from: nat, to: nat)
    requires Tiles(ranges, from, to)
    ensures Ascending(ranges, from, to)
    ensures forall l: nat :: Within(ranges, l) <==> from <= l <= to
    decreases |ranges|
  {
    if from <= to {
      TilesAscend(ranges[1..], ranges[0].end + 1, to);
      forall l: nat
        ensures Within(ranges, l) <==> from <= l <= to
      {
        WithinConcat([ranges[0]], ranges[1..], l);
        assert ranges == [ranges[0]] + ranges[1..];
        assert Within([ranges[0]], l) <==> ranges[0].Has(l) by {
          assert [ranges[0]][0] == ranges[0];
        }
      }
    }
  }

  lemma WithinConcat(a: seq<Range>, b: seq<Range>, line: nat)
    ensures Within(a + b, line) <==> Within(a, line) || Within(b, line)
  {
    if Within(a, line) {
      var i :| 0 <= i < |a| && a[i].Has(line);
      assert (a + b)[i] == a[i];
    }
    if Within(b, line) {
      var i :| 0 <= i < |b| && b[i].Has(line);
      assert (a + b)[|a| + i] == b[i];
    }
  }

  /** The module ranges ascend and hold exactly the uncovered lines. */
  lemma {:induction false} ModuleRangesExact(lines: seq<string>, covered: seq<bool>, line: nat, runStart: nat)
    requires 1 <= line <= |covered| == |lines| + 1 && runStart < line
    requires line == |covered| ==> runStart == 0
    requires forall l :: 1 <= runStart <= l < line ==> !covered[l]
    ensures var from := if runStart == 0 then line else runStart;
            var ranges := ModuleRanges(lines, covered, line, runStart);
            && Ascending(ranges, from, |lines|)
            && forall l: nat :: Within(ranges, l) <==> from <= l <= |lines| && !covered[l]
    decreases |covered| - line
  {
    if line < |covered| {
      var start := if !covered[line] && runStart == 0 then line else runStart;
      if start != 0 && (covered[line] || line == |lines|) {
        var end := if covered[line] then line - 1 else line;
        var cuts := Cuts(lines, start, start, end);
        var rest := ModuleRanges(lines, covered, line + 1, 0);
        CutsTile(lines, start, start, end);
        TilesAscend(cuts, start, end);
        ModuleRangesExact(lines, covered, line + 1, 0);
        AscendingWiden(rest, line + 1, end + 1, |lines|, |lines|);
        AscendingConcat(cuts, rest, start, end, |lines|);
        forall l: nat {
          WithinConcat(cuts, rest, l);
        }
      } else {
        ModuleRangesExact(lines, covered, line + 1, start);
        if start == 0 {
          AscendingWiden(ModuleRanges(lines, covered, line + 1, start), line + 1, line, |lines|, |lines|);
        }
      }
    }
  }

  /** `c` is the chunk of one of the first `n` spans, the first with its range. */
  predicate FromSpan(lines: seq<string>, spans: seq<Span>, n: nat, c: ChunkSpec)
    requires n <= |spans|
  {
    exists i :: 0 <= i < n && c == SymbolChunk(lines, spans[i]) && !SeenBefore(spans, |lines|, i)
  }

  lemma {:induction false} SymbolChunksFromSpans(lines: seq<string>, spans: seq<Span>, n: nat)
    requires n <= |spans|
    ensures forall k :: 0 <= k < |SymbolChunks(lines, spans, n)| ==>
              FromSpan(lines, spans, n, SymbolChunks(lines, spans, n)[k])
    ensures forall j, k :: 0 <= j < k < |SymbolChunks(lines, spans, n)| ==>
              SymbolChunks(lines, spans, n)[j].range != SymbolChunks(lines, spans, n)[k].range
  {
    if n > 0 {
      SymbolChunksFromSpans(lines, spans, n - 1);
      var before := SymbolChunks(lines, spans, n - 1);
      if !SeenBefore(spans, |lines|, n - 1) {
        forall k | 0 <= k < |before|
          ensures before[k].range != Clamp(spans[n - 1], |lines|)
        {
          assert FromSpan(lines, spans, n - 1, before[k]);
        }
      }
      forall k | 0 <= k < |before|
        ensures FromSpan(lines, spans, n, before[k])
      {
        assert FromSpan(lines, spans, n - 1, before[k]);
      }
    }
  }

  /** Every span's range is the range of some symbol chunk. */
  lemma {:induction false} SpanHasSymbolChunk(lines: seq<string>, spans: seq<Span>, n: nat, i: nat)
    returns (k: nat)
    requires i < n <= |spans|
    ensures k < |SymbolChunks(lines, spans, n)|
    ensures SymbolChunks(lines, spans, n)[k].range == Clamp(spans[i], |lines|)
  {
    if i < n - 1 {
      k := SpanHasSymbolChunk(lines, spans, n - 1, i);
    } else if SeenBefore(spans, |lines|, i) {
      var j :| 0 <= j < i && Clamp(spans[j], |lines|) == Clamp(spans[i], |lines|);
      k := SpanHasSymbolChunk(lines, spans, n - 1, j);
    } else {
      k := |SymbolChunks(lines, spans, n - 1)|;
    }
  }

  /** Some Symbol chunk of `chunks` holds the line. */
  predicate InSymbol(chunks: seq<ChunkSpec>, line: nat) {
    exists k :: 0 <= k < |chunks| && chunks[k].kind == Symbol && chunks[k].range.Has(line)
  }

  /** Chunk `k` is a Module chunk that holds the line. */
  predicate ModuleAt(chunks: seq<ChunkSpec>, k: nat, line: nat) {
    k < |chunks| && chunks[k].kind == Module && chunks[k].range.Has(line)
  }

  /** A line lies in a Symbol chunk exactly when a span covers it. */
  lemma SymbolCoverage(lines: seq<string>, spans: seq<Span>, line: nat)
    ensures InSymbol(ParsedChunks(lines, spans), line) <==> Covered(spans, |lines|, line)
  {
    hide ModuleRanges, SymbolChunks, JoinRange, Clamp;
    var symbols := SymbolChunks(lines, spans, |spans|);
    var chunks := ParsedChunks(lines, spans);
    if InSymbol(chunks, line) {
      var k :| 0 <= k < |chunks| && chunks[k].kind == Symbol && chunks[k].range.Has(line);
      SymbolChunksFromSpans(lines, spans, |spans|);
      assert FromSpan(lines, spans, |spans|, symbols[k]);
    }
    if Covered(spans, |lines|, line) {
      var i :| 0 <= i < |spans| && Clamp(spans[i], |lines|).Has(line);
      SpanInSymbol(lines, spans, i, line);
    }
  }

  lemma SpanInSymbol(lines: seq<string>, spans: seq<Span>, i: nat, line: nat)
    requires i < |spans| && Clamp(spans[i], |lines|).Has(line)
    ensures InSymbol(ParsedChunks(lines, spans), line)
  {
    hide ModuleRanges, SymbolChunks, JoinRange, Clamp;
    var symbols := SymbolChunks(lines, spans, |spans|);
    var k := SpanHasSymbolChunk(lines, spans, |spans|, i);
    SymbolChunksFromSpans(lines, spans, |spans|);
    assert FromSpan(lines, spans, |spans|, symbols[k]);
    assert ParsedChunks(lines, spans)[k] == symbols[k];
  }

  /** Module chunks are the chunks after the Symbol chunks, in the order of their ranges. */
  lemma ModuleIndex(lines: seq<string>, spans: seq<Span>, k: nat, line: nat)
    ensures var symbols := SymbolChunks(lines, spans, |spans|);
            var ranges := ModuleRanges(lines, CoverMap(spans, |lines|), 1, 0);
            ModuleAt(ParsedChunks(lines, spans), k, line)
            <==> |symbols| <= k < |symbols| + |ranges| && ranges[k - |symbols|].Has(line)
  {
    var symbols := SymbolChunks(lines, spans, |spans|);
    if k < |symbols| {
      SymbolChunksFromSpans(lines, spans, |spans|);
      assert FromSpan(lines, spans, |spans|, symbols[k]);
    }
  }

  /** A line of the file lies in exactly one Module chunk when no span covers it, and in none
      otherwise. */
  lemma ModuleCoverage(lines: seq<string>, spans: seq<Span>, line: nat)
    requires 1 <= line <= |lines|
    ensures !Covered(spans, |lines|, line) <==> exists k :: ModuleAt(ParsedChunks(lines, spans), k, line)
    ensures forall j, k ::
              (ModuleAt(ParsedChunks(lines, spans), j, line) && ModuleAt(ParsedChunks(lines, spans), k, line))
              ==> j == k
  {
    hide ModuleRanges, SymbolChunks, ParsedChunks, Covered, Ascending;
    var offset := |SymbolChunks(lines, spans, |spans|)|;
    var cover := CoverMap(spans, |lines|);
    var ranges := ModuleRanges(lines, cover, 1, 0);
    var chunks := ParsedChunks(lines, spans);
    ModuleRangesExact(lines, cover, 1, 0);
    assert Within(ranges, line) <==> !Covered(spans, |lines|, line);
    if Within(ranges, line) {
      var i: nat :| 0 <= i < |ranges| && ranges[i].Has(line);
      ModuleIndex(lines, spans, offset + i, line);
    }
    if k: nat :| ModuleAt(chunks, k, line) {
      ModuleIndex(lines, spans, k, line);
    }
    forall j: nat, k: nat | ModuleAt(chunks, j, line) && ModuleAt(chunks, k, line)
      ensures j == k
    {
      ModuleIndex(lines, spans, j, line);
      ModuleIndex(lines, spans, k, line);
      if j < k {
        AscendingIndexed(ranges, 1, |lines|, j - offset, k - offset);
      } else if k < j {
        AscendingIndexed(ranges, 1, |lines|, k - offset, j - offset);
      }
    }
  }

  /** One chunk of a parsed file: its range is inside the file, its body is the joined lines of
      that range, and its first line is covered exactly when it is a Symbol chunk. */
  lemma ParsedChunkShape(lines: seq<string>, spans: seq<Span>, k: nat)
    requires ParserContract(spans, |lines|)
    requires k < |ParsedChunks(lines, spans)|
    ensures var c := ParsedChunks(lines, spans)[k];
            && 1 <= c.range.start <= c.range.end <= |lines|
            && c.body == Join(lines[c.range.start - 1..c.range.end])
            && (c.kind == Symbol <==> k < |SymbolChunks(lines, spans, |spans|)|)
            && (c.kind == Symbol <==> Covered(spans, |lines|, c.range.start))
  {
    hide ModuleRanges, Cuts, Join, Ascending;
    var symbols := SymbolChunks(lines, spans, |spans|);
    var cover := CoverMap(spans, |lines|);
    var ranges := ModuleRanges(lines, cover, 1, 0);
    if k < |symbols| {
      SymbolChunksFromSpans(lines, spans, |spans|);
      assert FromSpan(lines, spans, |spans|, symbols[k]);
    } else {
      ModuleRangesExact(lines, cover, 1, 0);
      AscendingIndexed(ranges, 1, |lines|, k - |symbols|, k - |symbols|);
      assert ParsedChunks(lines, spans)[k] == Chunk(lines, Module, ranges[k - |symbols|]);
      assert Within(ranges, ranges[k - |symbols|].start);
    }
    var r := ParsedChunks(lines, spans)[k].range;
    JoinSlice(lines, r.start - 1, r.end);
  }

  lemma ParsedRangesDiffer(lines: seq<string>, spans: seq<Span>, j: nat, k: nat)
    requires ParserContract(spans, |lines|)
    requires j < k < |ParsedChunks(lines, spans)|
    ensures ParsedChunks(lines, spans)[j].range != ParsedChunks(lines, spans)[k].range
  {
    var symbols := SymbolChunks(lines, spans, |spans|);
    if k < |symbols| {
      SymbolChunksFromSpans(lines, spans, |spans|);
    } else if j < |symbols| {
      ParsedChunkShape(lines, spans, j);
      ParsedChunkShape(lines, spans, k);
    } else {
      var cover := CoverMap(spans, |lines|);
      ModuleRangesExact(lines, cover, 1, 0);
      AscendingIndexed(ModuleRanges(lines, cover, 1, 0), 1, |lines|, j - |symbols|, k - |symbols|);
    }
  }

  /** Every chunk of a parsed file has a range inside the file and the joined lines of that
      range as its body, and no two chunks have the same range. */
  lemma ParsedChunksDistinct(lines: seq<string>, spans: seq<Span>)
    requires ParserContract(spans, |lines|)
    ensures WellCarved(ParsedChunks(lines, spans), lines)
  {
    var chunks := ParsedChunks(lines, spans);
    forall k | 0 <= k < |chunks|
      ensures BodyOfRange(chunks[k], lines)
    {
      ParsedChunkShape(lines, spans, k);
    }
    forall j, k | 0 <= j < k < |chunks|
      ensures chunks[j].range != chunks[k].range
    {
      ParsedRangesDiffer(lines, spans, j, k);
    }
  }

  /** The chunk's range is inside the file and its body is the joined lines of that range. */
  predicate BodyOfRange(c: ChunkSpec, lines: seq<string>) {
    && 1 <= c.range.start <= c.range.end <= |lines|
    && c.body == Join(lines[c.range.start - 1..c.range.end])
  }

  predicate WellCarved(chunks: seq<ChunkSpec>, lines: seq<string>) {
    && (forall k :: 0 <= k < |chunks| ==> BodyOfRange(chunks[k], lines))
    && (forall j, k :: 0 <= j < k < |chunks| ==> chunks[j].range != chunks[k].range)
  }

  /** For any list of overlapping or nested spans: a line is in a Symbol chunk or in exactly one
      Module chunk, and never in both. */
  lemma ExactCoverage(lines: seq<string>, spans: seq<Span>, line: nat)
    requires 1 <= line <= |lines|
    ensures var chunks := ParsedChunks(lines, spans);
            && (InSymbol(chunks, line) <==> !exists k :: ModuleAt(chunks, k, line))
            && forall j, k :: ModuleAt(chunks, j, line) && ModuleAt(chunks, k, line) ==> j == k
  {
    SymbolCoverage(lines, spans, line);
    ModuleCoverage(lines, spans, line);
  }

  // ---------------------------------------------------------------------------------------
  // Unparsed files
  // ---------------------------------------------------------------------------------------

  function WindowAt(start: nat, total: nat): Range {
    Range(start, if start + WINDOW_LINES - 1 < total then start + WINDOW_LINES - 1 else total)
  }

  /** How many windows cover `total` lines. */
  function WindowCount(total: nat): nat {
    if total == 0 then 0
    else if total <= WINDOW_LINES then 1
    else 1 + (total - WINDOW_LINES + STRIDE - 1) / STRIDE
  }

  /** Window `k` starts a stride after window `k - 1`. */
  function WindowRanges(total: nat): seq<Range> {
    seq(WindowCount(total), k requires k >= 0 => WindowAt(1 + k * STRIDE, total))
  }

  method ChunkWindows(lines: seq<string>) returns (chunks: seq<ChunkSpec>)
    ensures chunks == Chunks(lines, Window, WindowRanges(|lines|))
  {
    var total := |lines|;
    chunks := [];
    if total == 0 {
      return;
    }
    var start := 1;
    while true
      invariant start == 1 + |chunks| * STRIDE
      invariant |chunks| < WindowCount(total)
      invariant chunks == Chunks(lines, Window, WindowRanges(total)[..|chunks|])
      decreases WindowCount(total) - |chunks|
    {
      var end := if start + WINDOW_LINES - 1 < total then start + WINDOW_LINES - 1 else total;
      assert WindowRanges(total)[|chunks|] == Range(start, end);
      chunks := chunks + [Chunk(lines, Window, Range(start, end))];
      if end >= total {
        break;
      }
      start := start + STRIDE;
    }
    assert WindowRanges(total)[..|chunks|] == WindowRanges(total);
  }

  /** Window `k` has the 60 lines from line `1 + 45 * k` on, as far as the file goes; the last window is the
      only one that reaches its end. Neighbours share exactly 15 lines and windows further apart share none. */
  lemma WindowShape(total: nat, k: nat)
    requires k < WindowCount(total)
    ensures var w := WindowRanges(total);
            && 1 <= w[k].start <= w[k].end <= total
            && w[k].start == 1 + 45 * k
            && w[k].end == (if 60 + 45 * k < total then 60 + 45 * k else total)
            && (k + 1 < |w| ==> w[k].end - w[k + 1].start + 1 == 15 && w[k].end < total)
            && (forall j :: k + 2 <= j < |w| ==> w[k].end < w[j].start)
            && (k + 1 == |w| <==> w[k].end == total)
  {
  }

  /** The windows that hold a line, in terms of how many strides precede it. */
  lemma WindowHas(total: nat, line: nat, k: nat)
    requires 1 <= line <= total && k < WindowCount(total)
    ensures var w := WindowRanges(total);
            var q := (line - 1) / STRIDE;
            && (w[k].Has(line) ==> k <= q)
            && (k == q || (k < q && k + 1 == |w|) ==> w[k].Has(line))
  {
    WindowShape(total, k);
  }

  lemma WindowsOfLine(total: nat, line: nat)
    requires 1 <= line <= total
    ensures var w := WindowRanges(total);
            exists k :: && 0 <= k < |w| && w[k].Has(line)
                        && forall j :: 0 <= j < |w| && w[j].Has(line) ==> j == k || j == k + 1
  {
    var w := WindowRanges(total);
    assert |w| == WindowCount(total) > 0;
    hide WindowCount, WindowRanges;
    var q := (line - 1) / STRIDE;
    var last := if q < |w| then q else |w| - 1;
    WindowHas(total, line, last);
    assert w[last].Has(line);
    forall j | 0 <= j < |w| && w[j].Has(line)
      ensures j == last || j == last - 1
    {
      WindowHas(total, line, j);
      WindowShape(total, j);
    }
    var k := if last > 0 && w[last - 1].Has(line) then last - 1 else last;
    assert forall j :: 0 <= j < |w| && w[j].Has(line) ==> j == k || j == k + 1;
  }

  lemma WindowsDistinct(lines: seq<string>)
    ensures WellCarved(Chunks(lines, Window, WindowRanges(|lines|)), lines)
  {
    hide WindowCount, BodyOfRange, JoinRange;
    var w := WindowRanges(|lines|);
    var chunks := Chunks(lines, Window, w);
    forall k | 0 <= k < |chunks|
      ensures BodyOfRange(chunks[k], lines)
    {
      WindowShape(|lines|, k);
      ChunkIsBody(lines, Window, w[k]);
    }
    forall j, k | 0 <= j < k < |chunks|
      ensures chunks[j].range != chunks[k].range
    {
      assert w[j].start == 1 + j * STRIDE && w[k].start == 1 + k * STRIDE;
    }
  }

  lemma ChunkIsBody(lines: seq<string>, kind: ChunkKind, r: Range)
    requires 1 <= r.start <= r.end <= |lines|
    ensures BodyOfRange(Chunk(lines, kind, r), lines)
  {
    hide Join;
    JoinSlice(lines, r.start - 1, r.end);
  }

  // ---------------------------------------------------------------------------------------
  // Files
  // ---------------------------------------------------------------------------------------

  /** `spans` is `None` for a file without a known language. */
  function FileChunks(content: string, spans: Option<seq<Span>>): seq<ChunkSpec> {
    match spans
    case Some(s) => ParsedChunks(Lines(content), s)
    case None => Chunks(Lines(content), Window, WindowRanges(|Lines(content)|))
  }

  // What a file is carved into, in its lines and spans.

  /** Line `line` of a file of `total` lines belongs to the span: it is one of the span's lines or its first,
      where a span that starts before line 1 starts there. */
  predicate SpanHas(span: Span, total: nat, line: nat) {
    1 <= line <= total && (span.start <= line <= span.end || line == span.start || (line == 1 && span.start == 0))
  }

  ghost predicate SameLines(r: Range, span: Span, total: nat) {
    forall line: nat :: r.Has(line) <==> SpanHas(span, total, line)
  }

  ghost predicate SpansAgree(a: Span, b: Span, total: nat) {
    forall line: nat :: SpanHas(a, total, line) <==> SpanHas(b, total, line)
  }

  /** No earlier span has the same lines. */
  ghost predicate FirstSpan(spans: seq<Span>, total: nat, i: nat)
    requires i < |spans|
  {
    forall j :: 0 <= j < i ==> !SpansAgree(spans[j], spans[i], total)
  }

  ghost predicate IsSymbolOf(c: ChunkSpec, span: Span, total: nat) {
    c.kind == Symbol && SameLines(c.range, span, total) && c.symbol == Some((span.sig, span.kind))
  }

  predicate SomeSpanHas(spans: seq<Span>, total: nat, line: nat) {
    exists i :: 0 <= i < |spans| && SpanHas(spans[i], total, line)
  }

  /** A maximal run of lines without a span. */
  ghost predicate IsRun(spans: seq<Span>, total: nat, run: Range) {
    && 1 <= run.start <= run.end <= total
    && (forall line: nat :: run.Has(line) ==> !SomeSpanHas(spans, total, line))
    && (run.start > 1 ==> SomeSpanHas(spans, total, run.start - 1))
    && (run.end < total ==> SomeSpanHas(spans, total, run.end + 1))
  }

  /** A piece of a run that respects the caps, and ends before the run does only if it had to. */
  ghost predicate IsPieceOf(lines: seq<string>, r: Range, run: Range) {
    && 1 <= run.start <= r.start <= r.end <= run.end && Capped(lines, run.start, r)
    && (r.end < run.end ==> Forced(lines, r, run.end))
  }

  /** A chunk without symbol: a piece of some run. */
  ghost predicate IsModulePiece(c: ChunkSpec, lines: seq<string>, spans: seq<Span>) {
    && c.kind == Module && c.symbol.None?
    && exists run :: IsRun(spans, |lines|, run) && IsPieceOf(lines, c.range, run)
  }

  ghost predicate HasSymbolOf(chunks: seq<ChunkSpec>, span: Span, total: nat) {
    exists k :: 0 <= k < |chunks| && IsSymbolOf(chunks[k], span, total)
  }

  ghost predicate IsSymbolOfSome(c: ChunkSpec, spans: seq<Span>, total: nat) {
    exists i :: 0 <= i < |spans| && FirstSpan(spans, total, i) && IsSymbolOf(c, spans[i], total)
  }

  /** Exactly one Symbol chunk per span, of spans with the same lines for the first; every other chunk is a
      piece of a run of lines without a span, and each such line is in exactly one of them. */
  ghost predicate CarvedBySpans(chunks: seq<ChunkSpec>, lines: seq<string>, spans: seq<Span>) {
    && WellCarved(chunks, lines)
    && (forall i :: 0 <= i < |spans| && FirstSpan(spans, |lines|, i) ==> HasSymbolOf(chunks, spans[i], |lines|))
    && (forall k :: 0 <= k < |chunks| && chunks[k].kind == Symbol ==> IsSymbolOfSome(chunks[k], spans, |lines|))
    && (forall k :: 0 <= k < |chunks| && chunks[k].kind != Symbol ==> IsModulePiece(chunks[k], lines, spans))
    && (forall line: nat :: 1 <= line <= |lines| ==> CarvedLine(chunks, lines, spans, line))
  }

  ghost predicate CarvedLine(chunks: seq<ChunkSpec>, lines: seq<string>, spans: seq<Span>, line: nat) {
    && (InSymbol(chunks, line) <==> SomeSpanHas(spans, |lines|, line))
    && (SomeSpanHas(spans, |lines|, line) <==> !exists k :: ModuleAt(chunks, k, line))
    && (forall j, k :: ModuleAt(chunks, j, line) && ModuleAt(chunks, k, line) ==> j == k)
  }

  /** Window chunks of 60 lines, each 45 lines after the one before, until one reaches the end of the file. */
  ghost predicate CarvedByWindows(chunks: seq<ChunkSpec>, lines: seq<string>) {
    && WellCarved(chunks, lines)
    && (chunks == [] <==> lines == [])
    && forall k :: 0 <= k < |chunks| ==> IsWindow(chunks, k, |lines|)
  }

  predicate IsWindow(chunks: seq<ChunkSpec>, k: nat, total: nat)
    requires k < |chunks|
  {
    && chunks[k].kind == Window && chunks[k].symbol.None?
    && chunks[k].range == Range(1 + 45 * k, if 60 + 45 * k < total then 60 + 45 * k else total)
    && (k + 1 == |chunks| <==> chunks[k].range.end == total)
  }

  lemma ClampHas(span: Span, total: nat, line: nat)
    requires 1 <= total && span.start <= total
    ensures Clamp(span, total).Has(line) <==> SpanHas(span, total, line)
  {
  }

  lemma ClampSame(a: Span, b: Span, total: nat)
    requires 1 <= total && a.start <= total && b.start <= total
    ensures SpansAgree(a, b, total) <==> Clamp(a, total) == Clamp(b, total)
  {
    hide Clamp, SpanHas;
    ClampBounds(a, total);
    ClampBounds(b, total);
    forall line: nat
      ensures Clamp(a, total).Has(line) <==> SpanHas(a, total, line)
      ensures Clamp(b, total).Has(line) <==> SpanHas(b, total, line)
    {
      ClampHas(a, total, line);
      ClampHas(b, total, line);
    }
    if SpansAgree(a, b, total) {
      SameRange(Clamp(a, total), Clamp(b, total));
    }
  }

  lemma ClampBounds(span: Span, total: nat)
    ensures 1 <= Clamp(span, total).start <= Clamp(span, total).end
  {
  }

  lemma SameRange(a: Range, b: Range)
    requires a.start <= a.end && b.start <= b.end
    requires forall line: nat :: a.Has(line) <==> b.Has(line)
    ensures a == b
  {
    assert a.Has(a.start) && a.Has(a.end) && b.Has(b.start) && b.Has(b.end);
  }

  lemma SeenIsNotFirst(spans: seq<Span>, total: nat, i: nat)
    requires ParserContract(spans, total) && i < |spans|
    ensures SeenBefore(spans, total, i) <==> !FirstSpan(spans, total, i)
  {
    hide Clamp, SpansAgree;
    forall j | 0 <= j < i
      ensures SpansAgree(spans[j], spans[i], total) <==> Clamp(spans[j], total) == Clamp(spans[i], total)
    {
      ClampSame(spans[j], spans[i], total);
    }
  }

  lemma CoveredIsSpanHas(spans: seq<Span>, total: nat, line: nat)
    requires ParserContract(spans, total)
    ensures Covered(spans, total, line) <==> SomeSpanHas(spans, total, line)
  {
    hide Clamp, SpanHas;
    forall i | 0 <= i < |spans|
      ensures Clamp(spans[i], total).Has(line) <==> SpanHas(spans[i], total, line)
    {
      ClampHas(spans[i], total, line);
    }
  }

  lemma SymbolChunkIsSymbolOf(lines: seq<string>, span: Span)
    requires 1 <= |lines| && span.start <= |lines|
    ensures IsSymbolOf(SymbolChunk(lines, span), span, |lines|)
  {
    hide Clamp, SpanHas, JoinRange;
    forall line: nat
      ensures Clamp(span, |lines|).Has(line) <==> SpanHas(span, |lines|, line)
    {
      ClampHas(span, |lines|, line);
    }
  }

  /** The first span with its lines has a symbol chunk of its own. */
  lemma {:induction false} FirstHasSymbolChunk(lines: seq<string>, spans: seq<Span>, n: nat, i: nat) returns (k: nat)
    requires i < n <= |spans| && !SeenBefore(spans, |lines|, i)
    ensures k < |SymbolChunks(lines, spans, n)| && SymbolChunks(lines, spans, n)[k] == SymbolChunk(lines, spans[i])
  {
    hide SeenBefore, SymbolChunk;
    if i < n - 1 {
      k := FirstHasSymbolChunk(lines, spans, n - 1, i);
    } else {
      k := |SymbolChunks(lines, spans, n - 1)|;
    }
  }

  /** A maximal run of uncovered lines, from the cover map. */
  predicate UncoveredRun(covered: seq<bool>, run: Range) {
    && 1 <= run.start <= run.end < |covered|
    && (forall l :: run.start <= l <= run.end ==> !covered[l])
    && (run.start > 1 ==> covered[run.start - 1])
    && (run.end + 1 < |covered| ==> covered[run.end + 1])
  }

  /** A module range is one of the cuts of such a run. */
  ghost predicate CutOfRun(lines: seq<string>, covered: seq<bool>, r: Range) {
    exists run: Range ::
      && UncoveredRun(covered, run) && run.end <= |lines|
      && r in Cuts(lines, run.start, run.start, run.end)
  }

  lemma {:induction false} ModuleRangesAreCuts(lines: seq<string>, covered: seq<bool>, line: nat, runStart: nat)
    requires 1 <= line <= |covered| == |lines| + 1 && runStart < line
    requires line == |covered| ==> runStart == 0
    requires forall l :: 1 <= runStart <= l < line ==> !covered[l]
    requires var from := if runStart == 0 then line else runStart;
             1 < from < |covered| ==> covered[from - 1]
    ensures forall r :: r in ModuleRanges(lines, covered, line, runStart) ==> CutOfRun(lines, covered, r)
    decreases |covered| - line
  {
    hide Cuts;
    if line < |covered| {
      var start := if !covered[line] && runStart == 0 then line else runStart;
      if start != 0 && (covered[line] || line == |lines|) {
        var end := if covered[line] then line - 1 else line;
        assert UncoveredRun(covered, Range(start, end));
        ModuleRangesAreCuts(lines, covered, line + 1, 0);
      } else {
        ModuleRangesAreCuts(lines, covered, line + 1, start);
      }
    }
  }

  lemma UncoveredIsRun(spans: seq<Span>, total: nat, run: Range)
    requires ParserContract(spans, total) && UncoveredRun(CoverMap(spans, total), run)
    ensures IsRun(spans, total, run)
  {
    hide Covered, SomeSpanHas, ParserContract;
    var cover := CoverMap(spans, total);
    forall line: nat | line <= total
      ensures cover[line] <==> SomeSpanHas(spans, total, line)
    {
      CoveredIsSpanHas(spans, total, line);
    }
    assert |cover| == total + 1;
  }

  lemma CutIsPiece(lines: seq<string>, spans: seq<Span>, r: Range)
    requires ParserContract(spans, |lines|) && CutOfRun(lines, CoverMap(spans, |lines|), r)
    ensures exists run :: IsRun(spans, |lines|, run) && IsPieceOf(lines, r, run)
  {
    hide Cuts, Covered, SomeSpanHas, Capped, Forced, Tiles, Within, Ascending, ParserContract;
    var cover := CoverMap(spans, |lines|);
    var run :| UncoveredRun(cover, run) && run.end <= |lines| && r in Cuts(lines, run.start, run.start, run.end);
    UncoveredIsRun(spans, |lines|, run);
    var cuts := Cuts(lines, run.start, run.start, run.end);
    SplitBounds(lines, run.start, run.end);
    TilesAscend(cuts, run.start, run.end);
    var i :| 0 <= i < |cuts| && cuts[i] == r;
    AscendingIndexed(cuts, run.start, run.end, i, i);
  }

  lemma SpanIsCarved(lines: seq<string>, spans: seq<Span>, i: nat)
    requires ParserContract(spans, |lines|) && i < |spans| && FirstSpan(spans, |lines|, i)
    ensures HasSymbolOf(ParsedChunks(lines, spans), spans[i], |lines|)
  {
    hide SymbolChunks, SymbolChunk, ModuleRanges, Chunks, FirstSpan, SeenBefore, IsSymbolOf;
    SeenIsNotFirst(spans, |lines|, i);
    var k := FirstHasSymbolChunk(lines, spans, |spans|, i);
    SymbolChunkIsSymbolOf(lines, spans[i]);
    assert IsSymbolOf(ParsedChunks(lines, spans)[k], spans[i], |lines|);
  }

  lemma ChunkIsCarved(lines: seq<string>, spans: seq<Span>, k: nat)
    requires ParserContract(spans, |lines|) && k < |ParsedChunks(lines, spans)|
    ensures var c := ParsedChunks(lines, spans)[k];
            if c.kind == Symbol then IsSymbolOfSome(c, spans, |lines|) else IsModulePiece(c, lines, spans)
  {
    hide SymbolChunks, ModuleRanges, FirstSpan, SeenBefore, IsSymbolOf, CutOfRun, JoinRange, Clamp;
    var symbols := SymbolChunks(lines, spans, |spans|);
    var cover := CoverMap(spans, |lines|);
    if k < |symbols| {
      SymbolChunksFromSpans(lines, spans, |spans|);
      assert FromSpan(lines, spans, |spans|, symbols[k]);
      var i :| 0 <= i < |spans| && symbols[k] == SymbolChunk(lines, spans[i]) && !SeenBefore(spans, |lines|, i);
      SeenIsNotFirst(spans, |lines|, i);
      SymbolChunkIsSymbolOf(lines, spans[i]);
    } else {
      var ranges := ModuleRanges(lines, cover, 1, 0);
      ModuleRangesAreCuts(lines, cover, 1, 0);
      CutIsPiece(lines, spans, ranges[k - |symbols|]);
    }
  }

  lemma ParsedIsCarved(lines: seq<string>, spans: seq<Span>)
    requires ParserContract(spans, |lines|)
    ensures CarvedBySpans(ParsedChunks(lines, spans), lines, spans)
  {
    hide ParsedChunks, FirstSpan, HasSymbolOf, IsSymbolOfSome, IsModulePiece, WellCarved, InSymbol, ModuleAt, Covered;
    var chunks := ParsedChunks(lines, spans);
    ParsedChunksDistinct(lines, spans);
    forall i | 0 <= i < |spans| && FirstSpan(spans, |lines|, i)
      ensures HasSymbolOf(chunks, spans[i], |lines|)
    {
      SpanIsCarved(lines, spans, i);
    }
    forall k | 0 <= k < |chunks|
      ensures chunks[k].kind == Symbol ==> IsSymbolOfSome(chunks[k], spans, |lines|)
      ensures chunks[k].kind != Symbol ==> IsModulePiece(chunks[k], lines, spans)
    {
      ChunkIsCarved(lines, spans, k);
    }
    forall line: nat | 1 <= line <= |lines|
      ensures CarvedLine(chunks, lines, spans, line)
    {
      SymbolCoverage(lines, spans, line);
      ModuleCoverage(lines, spans, line);
      CoveredIsSpanHas(spans, |lines|, line);
    }
  }

  lemma WindowsAreCarved(lines: seq<string>)
    ensures CarvedByWindows(Chunks(lines, Window, WindowRanges(|lines|)), lines)
  {
    hide WellCarved, JoinRange;
    WindowsDistinct(lines);
    var chunks := Chunks(lines, Window, WindowRanges(|lines|));
    forall k | 0 <= k < |chunks|
      ensures IsWindow(chunks, k, |lines|)
    {
      WindowShape(|lines|, k);
    }
  }

  /** A file with a parse is carved by its spans, any other by windows. */
  method ChunkFile(content: string, spans: Option<seq<Span>>) returns (chunks: seq<ChunkSpec>)
    requires spans.Some? ==> ParserContract(spans.value, |Lines(content)|)
    ensures chunks == FileChunks(content, spans)
    ensures spans.Some? ==> CarvedBySpans(chunks, Lines(content), spans.value)
    ensures spans.None? ==> CarvedByWindows(chunks, Lines(content))
  {
    FileIsCarved(content, spans);
    match spans
    case Some(s) => chunks := ChunkParsed(Lines(content), s);
    case None => chunks := ChunkWindows(Lines(content));
  }

  /** The same of the chunks the indexer asks for. */
  lemma FileIsCarved(content: string, spans: Option<seq<Span>>)
    requires spans.Some? ==> ParserContract(spans.value, |Lines(content)|)
    ensures spans.Some? ==> CarvedBySpans(FileChunks(content, spans), Lines(content), spans.value)
    ensures spans.None? ==> CarvedByWindows(FileChunks(content, spans), Lines(content))
  {
    hide CarvedBySpans, CarvedByWindows, ParsedChunks, Chunks, Lines;
    match spans
    case Some(s) => ParsedIsCarved(Lines(content), s);
    case None => WindowsAreCarved(Lines(content));
  }

  /** The chunks of any file are well carved, so the ids of two of them differ, and no chunk of
      another path has the id of either. */
  lemma ChunkIdsDistinct(path: string, content: string, spans: Option<seq<Span>>)
    requires spans.Some? ==> ParserContract(spans.value, |Lines(content)|)
    ensures WellCarved(FileChunks(content, spans), Lines(content))
    ensures forall j, k :: 0 <= j < k < |FileChunks(content, spans)| ==>
              IdOf(path, FileChunks(content, spans)[j]) != IdOf(path, FileChunks(content, spans)[k])
    ensures forall k, path', c: ChunkSpec :: 0 <= k < |FileChunks(content, spans)| && path != path' ==>
              IdOf(path, FileChunks(content, spans)[k]) != IdOf(path', c)
  {
    var chunks := FileChunks(content, spans);
    match spans {
      case Some(s) => ParsedChunksDistinct(Lines(content), s);
      case None => WindowsDistinct(Lines(content));
    }
    forall c: ChunkSpec, d: ChunkSpec, path' | IdOf(path, c) == IdOf(path', d)
      ensures path == path' && c.range == d.range
    {
      ChunkIdInjective(path, c.range.start, c.range.end, path', d.range.start, d.range.end);
    }
  }

  function IdOf(path: string, c: ChunkSpec): string {
    ChunkId(path, c.range.start, c.range.end)
  }
}
