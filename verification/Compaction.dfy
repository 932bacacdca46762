/** Shortening a text segment: the block parser, the cut of a prose block and the
    mode that leaves code and tables alone. A segment is its list of lines. */
module Compaction {

  type Line = string

  datatype Kind = Code | Table | Prose
  datatype Block = Block(kind: Kind, lines: seq<Line>)

  /** What `str.strip` removes. */
  predicate IsSpace(c: char) {
    var u := c as int;
    || 0x09 <= u <= 0x0D || 0x1C <= u <= 0x20 || u == 0x85 || u == 0xA0 || u == 0x1680
    || 0x2000 <= u <= 0x200A || u == 0x2028 || u == 0x2029 || u == 0x202F || u == 0x205F || u == 0x3000
  }

  predicate IsBlank(line: Line) {
    forall c :: c in line ==> IsSpace(c)
  }

  predicate IsFence(line: Line) {
    |line| >= 3 && line[0] == line[1] == line[2] == '`'
  }

  predicate IsRow(line: Line) {
    |line| >= 1 && line[0] == '|'
  }

  predicate IsText(line: Line) {
    !IsBlank(line) && !IsFence(line) && !IsRow(line)
  }

  lemma LineKindsExclude(line: Line)
    ensures IsFence(line) ==> !IsRow(line) && !IsBlank(line)
    ensures IsRow(line) ==> !IsBlank(line)
  {
    if |line| >= 1 {
      assert line[0] in line;
    }
  }

  // ----- what a parse is -----

  ghost predicate IsCode(lines: seq<Line>, rest: seq<Line>) {
    && lines != [] && IsFence(lines[0])
    && (forall k :: 0 < k < |lines| - 1 ==> !IsFence(lines[k]))
    && ((|lines| >= 2 && IsFence(lines[|lines| - 1])) || rest == [])
  }

  ghost predicate IsTable(lines: seq<Line>, rest: seq<Line>) {
    && lines != [] && (forall k :: 0 <= k < |lines| ==> IsRow(lines[k]))
    && (rest != [] ==> !IsRow(rest[0]))
  }

  ghost predicate IsProse(lines: seq<Line>, rest: seq<Line>) {
    || (|lines| == 1 && IsBlank(lines[0]))
    || (&& lines != [] && (forall k :: 0 <= k < |lines| ==> IsText(lines[k]))
        && (rest != [] ==> !IsText(rest[0])))
  }

  /** `b` is what a parser must take off the front when `rest` is left over. */
  ghost predicate IsBlock(b: Block, rest: seq<Line>) {
    match b.kind
    case Code => IsCode(b.lines, rest)
    case Table => IsTable(b.lines, rest)
    case Prose => IsProse(b.lines, rest)
  }

  ghost predicate IsParse(blocks: seq<Block>, lines: seq<Line>)
    decreases |blocks|
  {
    if blocks == [] then lines == []
    else
      var b := blocks[0];
      && b.lines <= lines
      && IsBlock(b, lines[|b.lines|..])
      && IsParse(blocks[1..], lines[|b.lines|..])
  }

  function LinesOf(blocks: seq<Block>): seq<Line> {
    if blocks == [] then [] else blocks[0].lines + LinesOf(blocks[1..])
  }

  /** Nothing is lost, added or moved. */
  lemma {:induction false} ParseIsLossless(blocks: seq<Block>, lines: seq<Line>)
    requires IsParse(blocks, lines)
    ensures LinesOf(blocks) == lines
    decreases |blocks|
  {
    if blocks != [] {
      ParseIsLossless(blocks[1..], lines[|blocks[0].lines|..]);
      FrontAndRest(blocks[0].lines, lines);
    }
  }

  lemma FrontAndRest(front: seq<Line>, lines: seq<Line>)
    requires front <= lines
    ensures front + lines[|front|..] == lines
  {
  }

  lemma FirstLineDecides(b: Block, rest: seq<Line>)
    requires IsBlock(b, rest)
    ensures b.lines != []
    ensures b.kind == if IsFence(b.lines[0]) then Code else if IsRow(b.lines[0]) then Table else Prose
  {
    LineKindsExclude(b.lines[0]);
  }

  /** Of two blocks taken off the same lines none can be the shorter one. */
  lemma BlocksEndTogether(a: Block, b: Block, lines: seq<Line>)
    requires a.lines <= lines && b.lines <= lines
    requires IsBlock(a, lines[|a.lines|..]) && IsBlock(b, lines[|b.lines|..])
    ensures |a.lines| >= |b.lines|
  {
    FirstLineDecides(a, lines[|a.lines|..]);
    FirstLineDecides(b, lines[|b.lines|..]);
    assert a.lines[0] == lines[0] == b.lines[0];
  }

  /** The description leaves no choice: a text has one parse. */
  lemma {:induction false} ParseIsUnique(a: seq<Block>, b: seq<Block>, lines: seq<Line>)
    requires IsParse(a, lines) && IsParse(b, lines)
    ensures a == b
    decreases |a|
  {
    if a == [] {
      if b != [] {
        FirstLineDecides(b[0], lines[|b[0].lines|..]);
      }
    } else {
      FirstLineDecides(a[0], lines[|a[0].lines|..]);
      FirstLineDecides(b[0], lines[|b[0].lines|..]);
      BlocksEndTogether(a[0], b[0], lines);
      BlocksEndTogether(b[0], a[0], lines);
      assert a[0] == b[0];
      ParseIsUnique(a[1..], b[1..], lines[|a[0].lines|..]);
    }
  }

  // ----- the parser -----

  method ReadCode(lines: seq<Line>, start: nat) returns (block: Block, i: nat)
    requires start < |lines| && IsFence(lines[start])
    ensures start < i <= |lines| && block == Block(Code, lines[start..i])
    ensures IsBlock(block, lines[i..])
  {
    var read := [lines[start]];
    i := start + 1;
    while i < |lines| && !IsFence(lines[i])
      invariant start < i <= |lines| && read == lines[start..i]
      invariant forall k :: 0 < k < |read| ==> !IsFence(read[k])
    {
      read := read + [lines[i]];
      i := i + 1;
    }
    if i < |lines| {
      read := read + [lines[i]];
      i := i + 1;
    }
    block := Block(Code, read);
  }

  method ReadTable(lines: seq<Line>, start: nat) returns (block: Block, i: nat)
    requires start < |lines| && IsRow(lines[start])
    ensures start < i <= |lines| && block == Block(Table, lines[start..i])
    ensures IsBlock(block, lines[i..])
  {
    var read := [lines[start]];
    i := start + 1;
    while i < |lines| && IsRow(lines[i])
      invariant start < i <= |lines| && read == lines[start..i]
      invariant forall k :: 0 <= k < |read| ==> IsRow(read[k])
    {
      read := read + [lines[i]];
      i := i + 1;
    }
    block := Block(Table, read);
  }

  method ReadProse(lines: seq<Line>, start: nat) returns (block: Block, i: nat)
    requires start < |lines| && IsText(lines[start])
    ensures start < i <= |lines| && block == Block(Prose, lines[start..i])
    ensures IsBlock(block, lines[i..])
  {
    var read := [lines[start]];
    i := start + 1;
    while i < |lines| && !IsBlank(lines[i]) && !IsFence(lines[i]) && !IsRow(lines[i])
      invariant start < i <= |lines| && read == lines[start..i]
      invariant forall k :: 0 <= k < |read| ==> IsText(read[k])
    {
      read := read + [lines[i]];
      i := i + 1;
    }
    block := Block(Prose, read);
  }

  /** `blocks` stands in front of every parse of what is still unread. */
  ghost predicate ParsedUpTo(blocks: seq<Block>, i: nat, lines: seq<Line>)
    requires i <= |lines|
  {
    forall more :: IsParse(more, lines[i..]) ==> IsParse(blocks + more, lines)
  }

  lemma ParseExtends(blocks: seq<Block>, i: nat, block: Block, j: nat, lines: seq<Line>)
    requires i <= j <= |lines| && block.lines == lines[i..j]
    requires ParsedUpTo(blocks, i, lines) && IsBlock(block, lines[j..])
    ensures ParsedUpTo(blocks + [block], j, lines)
  {
    forall more | IsParse(more, lines[j..]) ensures IsParse(blocks + [block] + more, lines) {
      ParseExtendsBy(blocks, i, block, j, lines, more);
    }
  }

  lemma ParseExtendsBy(blocks: seq<Block>, i: nat, block: Block, j: nat, lines: seq<Line>, more: seq<Block>)
    requires i <= j <= |lines| && block.lines == lines[i..j]
    requires ParsedUpTo(blocks, i, lines) && IsBlock(block, lines[j..]) && IsParse(more, lines[j..])
    ensures IsParse(blocks + [block] + more, lines)
  {
    Sliced(lines, i, j);
    BlockInFront(block, more, lines[i..]);
    assert blocks + [block] + more == blocks + ([block] + more);
  }

  lemma Sliced(lines: seq<Line>, i: nat, j: nat)
    requires i <= j <= |lines|
    ensures lines[i..j] <= lines[i..] && lines[i..][j - i..] == lines[j..]
  {
  }

  lemma BlockInFront(block: Block, more: seq<Block>, lines: seq<Line>)
    requires block.lines <= lines && IsBlock(block, lines[|block.lines|..]) && IsParse(more, lines[|block.lines|..])
    ensures IsParse([block] + more, lines)
  {
    assert ([block] + more)[1..] == more;
  }

  method ParseBlocks(lines: seq<Line>) returns (blocks: seq<Block>)
    ensures IsParse(blocks, lines)
  {
    blocks := [];
    var i := 0;
    assert forall more: seq<Block> :: [] + more == more;
    assert lines[0..] == lines;
    while i < |lines|
      invariant i <= |lines|
      invariant ParsedUpTo(blocks, i, lines)
    {
      var block, j;
      if IsFence(lines[i]) {
        block, j := ReadCode(lines, i);
      } else if IsRow(lines[i]) {
        block, j := ReadTable(lines, i);
      } else if !IsBlank(lines[i]) {
        block, j := ReadProse(lines, i);
      } else {
        block, j := Block(Prose, [lines[i]]), i + 1;
      }
      ParseExtends(blocks, i, block, j, lines);
      blocks := blocks + [block];
      i := j;
    }
    assert IsParse([], lines[i..]);
    assert blocks + [] == blocks;
  }

  // ----- cutting prose -----

  /** One element of the output: a line of the input, or the marker that stands
      for a number of dropped lines. */
  datatype Piece = Kept(line: Line) | Skipped(count: int)

  function Keep(lines: seq<Line>): (pieces: seq<Piece>)
    ensures |pieces| == |lines|
  {
    seq(|lines|, k requires 0 <= k < |lines| => Kept(lines[k]))
  }

  /** `int(x)` on a number: towards zero. */
  function Truncated(x: real): int {
    if x >= 0.0 then x.Floor else -(-x).Floor
  }

  function KeepCount(total: nat, ratio: real): (count: int)
    ensures count >= 1
  {
    var wanted := Truncated(total as real * ratio);
    if wanted > 1 then wanted else 1
  }

  function HeadCount(keep: int): (head: int)
    requires keep >= 1
    ensures 1 <= head <= keep
  {
    if keep / 2 > 1 then keep / 2 else 1
  }

  /** `lines` with the middle replaced by one marker, so that `keep` lines stay. */
  function Cut(lines: seq<Line>, keep: int): seq<Piece>
    requires 1 <= keep < |lines|
  {
    var head := HeadCount(keep);
    Keep(lines[..head]) + [Skipped(|lines| - keep)] + Keep(lines[|lines| - (keep - head)..])
  }

  function Shortened(lines: seq<Line>, ratio: real): seq<Piece> {
    if ratio >= 1.0 || KeepCount(|lines|, ratio) >= |lines| then Keep(lines)
    else Cut(lines, KeepCount(|lines|, ratio))
  }

  method CompactProseLines(lines: seq<Line>, ratio: real) returns (pieces: seq<Piece>)
    ensures pieces == Shortened(lines, ratio)
  {
    if ratio >= 1.0 || lines == [] {
      return Keep(lines);
    }
    var total := |lines|;
    var keepCount := KeepCount(total, ratio);
    if keepCount >= total {
      return Keep(lines);
    }
    var headKeep := HeadCount(keepCount);
    var tailKeep := keepCount - headKeep;
    var head := Keep(lines[..headKeep]);
    var tail := Keep(lines[total - tailKeep..]);
    pieces := head;
    if tailKeep > 0 {
      pieces := pieces + tail;
    }
    assert pieces == head + tail;
    var skipped := total - keepCount;
    pieces := pieces[..headKeep] + [Skipped(skipped)] + pieces[headKeep..];
    assert pieces == head + [Skipped(skipped)] + tail;
  }

  // ----- reading the output back -----

  datatype Tagged = Tagged(text: Line, prose: bool)

  function Tag(lines: seq<Line>, prose: bool): (tagged: seq<Tagged>)
    ensures |tagged| == |lines|
  {
    seq(|lines|, k requires 0 <= k < |lines| => Tagged(lines[k], prose))
  }

  /** The output spells the lines out in order, except that each marker stands
      for as many consecutive prose lines as it says. */
  ghost predicate Expands(pieces: seq<Piece>, lines: seq<Tagged>)
    decreases |pieces|
  {
    if pieces == [] then lines == []
    else
      match pieces[0]
      case Kept(line) => lines != [] && lines[0].text == line && Expands(pieces[1..], lines[1..])
      case Skipped(n) =>
        0 < n <= |lines| && (forall k :: 0 <= k < n ==> lines[k].prose) && Expands(pieces[1..], lines[n..])
  }

  lemma {:induction false} ExpandsAppend(p: seq<Piece>, a: seq<Tagged>, q: seq<Piece>, b: seq<Tagged>)
    requires Expands(p, a) && Expands(q, b)
    ensures Expands(p + q, a + b)
    decreases |p|
  {
    if p == [] {
      assert p + q == q && a + b == b;
    } else {
      assert (p + q)[1..] == p[1..] + q;
      match p[0]
      case Kept(_) =>
        assert (a + b)[1..] == a[1..] + b;
        ExpandsAppend(p[1..], a[1..], q, b);
      case Skipped(n) =>
        assert (a + b)[n..] == a[n..] + b;
        ExpandsAppend(p[1..], a[n..], q, b);
    }
  }

  lemma {:induction false} KeepExpands(lines: seq<Line>, prose: bool)
    ensures Expands(Keep(lines), Tag(lines, prose))
  {
    if lines != [] {
      KeepExpands(lines[1..], prose);
      assert Keep(lines)[1..] == Keep(lines[1..]);
      assert Tag(lines, prose)[1..] == Tag(lines[1..], prose);
    }
  }

  lemma MarkerExpands(lines: seq<Line>)
    requires lines != []
    ensures Expands([Skipped(|lines|)], Tag(lines, true))
  {
    assert Tag(lines, true)[|lines|..] == [];
    assert Expands([Skipped(|lines|)][1..], []);
  }

  lemma ThreePartsExpand(front: seq<Line>, middle: seq<Line>, back: seq<Line>)
    requires middle != []
    ensures Expands(Keep(front) + [Skipped(|middle|)] + Keep(back), Tag(front, true) + Tag(middle, true) + Tag(back, true))
  {
    KeepExpands(front, true);
    MarkerExpands(middle);
    KeepExpands(back, true);
    ExpandsAppend(Keep(front), Tag(front, true), [Skipped(|middle|)], Tag(middle, true));
    ExpandsAppend(Keep(front) + [Skipped(|middle|)], Tag(front, true) + Tag(middle, true), Keep(back), Tag(back, true));
  }

  lemma CutExpands(lines: seq<Line>, keep: int)
    requires 1 <= keep < |lines|
    ensures Expands(Cut(lines, keep), Tag(lines, true))
  {
    var head := HeadCount(keep);
    var tail := |lines| - (keep - head);
    ThreePartsExpand(lines[..head], lines[head..tail], lines[tail..]);
    TagsJoin(lines, head, tail);
  }

  lemma TagsJoin(lines: seq<Line>, i: nat, j: nat)
    requires i <= j <= |lines|
    ensures Tag(lines[..i], true) + Tag(lines[i..j], true) + Tag(lines[j..], true) == Tag(lines, true)
  {
  }

  /** A shortened block reads back as the block. */
  lemma ShortenedExpands(lines: seq<Line>, ratio: real)
    ensures Expands(Shortened(lines, ratio), Tag(lines, true))
  {
    var keep := KeepCount(|lines|, ratio);
    if ratio >= 1.0 || keep >= |lines| {
      KeepExpands(lines, true);
    } else {
      CutExpands(lines, keep);
    }
  }

  function KeptLines(pieces: seq<Piece>): seq<Line> {
    if pieces == [] then []
    else (if pieces[0].Kept? then [pieces[0].line] else []) + KeptLines(pieces[1..])
  }

  function SkippedTotal(pieces: seq<Piece>): int {
    if pieces == [] then 0 else (if pieces[0].Skipped? then pieces[0].count else 0) + SkippedTotal(pieces[1..])
  }

  function Texts(lines: seq<Tagged>): (texts: seq<Line>)
    ensures |texts| == |lines|
  {
    seq(|lines|, k requires 0 <= k < |lines| => lines[k].text)
  }

  function Protected(lines: seq<Tagged>): seq<Line> {
    if lines == [] then []
    else (if lines[0].prose then [] else [lines[0].text]) + Protected(lines[1..])
  }

  ghost predicate IsSubsequence(a: seq<Line>, b: seq<Line>) {
    || a == []
    || (b != [] && (IsSubsequence(a, b[1..]) || (a[0] == b[0] && IsSubsequence(a[1..], b[1..]))))
  }

  lemma {:induction false} ProtectedSkipsProse(lines: seq<Tagged>, n: nat)
    requires n <= |lines| && forall k :: 0 <= k < n ==> lines[k].prose
    ensures Protected(lines) == Protected(lines[n..])
  {
    if n == 0 {
      assert lines[0..] == lines;
    } else {
      ProtectedSkipsProse(lines[1..], n - 1);
      assert lines[1..][n - 1..] == lines[n..];
    }
  }

  lemma {:induction false} SubsequenceSkips(a: seq<Line>, b: seq<Line>, n: nat)
    requires n <= |b| && IsSubsequence(a, b[n..])
    ensures IsSubsequence(a, b)
  {
    if n == 0 {
      assert b[0..] == b;
    } else {
      assert b[1..][n - 1..] == b[n..];
      SubsequenceSkips(a, b[1..], n - 1);
    }
  }

  /** Every line is either printed or counted by a marker; what is printed stands
      in the input's order; and every line outside prose is printed. */
  lemma {:induction false} NothingUnaccounted(pieces: seq<Piece>, lines: seq<Tagged>)
    requires Expands(pieces, lines)
    ensures |KeptLines(pieces)| + SkippedTotal(pieces) == |lines|
    ensures IsSubsequence(KeptLines(pieces), Texts(lines))
    ensures IsSubsequence(Protected(lines), KeptLines(pieces))
    decreases |pieces|
  {
    if pieces != [] {
      match pieces[0]
      case Kept(line) =>
        NothingUnaccounted(pieces[1..], lines[1..]);
        assert Texts(lines)[1..] == Texts(lines[1..]);
        assert KeptLines(pieces)[1..] == KeptLines(pieces[1..]);
        if lines[0].prose {
          ProtectedSkipsProse(lines, 1);
        } else {
          assert Protected(lines)[1..] == Protected(lines[1..]);
        }
      case Skipped(n) =>
        NothingUnaccounted(pieces[1..], lines[n..]);
        assert Texts(lines)[n..] == Texts(lines[n..]);
        assert KeptLines(pieces) == KeptLines(pieces[1..]);
        SubsequenceSkips(KeptLines(pieces), Texts(lines), n);
        ProtectedSkipsProse(lines, n);
    }
  }

  lemma {:induction false} KeptOfBoth(a: seq<Piece>, b: seq<Piece>)
    ensures KeptLines(a + b) == KeptLines(a) + KeptLines(b)
  {
    if a == [] {
      assert a + b == b;
    } else {
      var rest := a[1..] + b;
      assert (a + b)[1..] == rest && (a + b)[0] == a[0];
      KeptOfBoth(a[1..], b);
    }
  }

  lemma {:induction false} SkippedOfBoth(a: seq<Piece>, b: seq<Piece>)
    ensures SkippedTotal(a + b) == SkippedTotal(a) + SkippedTotal(b)
  {
    if a == [] {
      assert a + b == b;
    } else {
      var rest := a[1..] + b;
      assert (a + b)[1..] == rest && (a + b)[0] == a[0];
      SkippedOfBoth(a[1..], b);
    }
  }

  lemma MarkersOf(a: seq<Piece>, b: seq<Piece>)
    ensures KeptLines(a + b) == KeptLines(a) + KeptLines(b)
    ensures SkippedTotal(a + b) == SkippedTotal(a) + SkippedTotal(b)
  {
    KeptOfBoth(a, b);
    SkippedOfBoth(a, b);
  }

  lemma {:induction false} KeepHasNoMarkers(lines: seq<Line>)
    ensures KeptLines(Keep(lines)) == lines && SkippedTotal(Keep(lines)) == 0
  {
    if lines != [] {
      assert Keep(lines)[1..] == Keep(lines[1..]);
      KeepHasNoMarkers(lines[1..]);
    }
  }

  lemma CutFillsTheQuota(lines: seq<Line>, keep: int)
    requires 1 <= keep < |lines|
    ensures var pieces := Cut(lines, keep);
      pieces[0] == Kept(lines[0]) && |KeptLines(pieces)| == keep && SkippedTotal(pieces) == |lines| - keep
  {
    var head, n := HeadCount(keep), |lines| - keep;
    var front, marker, back := lines[..head], [Skipped(n)], lines[|lines| - (keep - head)..];
    KeepHasNoMarkers(front);
    KeepHasNoMarkers(back);
    MarkersOf(Keep(front) + marker, Keep(back));
    MarkersOf(Keep(front), marker);
    assert marker[1..] == [];
  }

  /** A block below ratio 1 loses lines exactly when its quota is smaller than the
      block; the first line stays, and the printed lines fill the quota. */
  lemma ShortenedFillsTheQuota(lines: seq<Line>, ratio: real)
    requires lines != [] && ratio < 1.0
    ensures var pieces, keep := Shortened(lines, ratio), KeepCount(|lines|, ratio);
      && pieces[0] == Kept(lines[0])
      && |KeptLines(pieces)| == (if keep < |lines| then keep else |lines|)
      && SkippedTotal(pieces) == |lines| - |KeptLines(pieces)|
  {
    var keep := KeepCount(|lines|, ratio);
    if keep >= |lines| {
      KeepHasNoMarkers(lines);
    } else {
      CutFillsTheQuota(lines, keep);
    }
  }

  /** Below ratio 1 the number of printed lines is the whole part of the block's share,
      but at least one: it is not above the share, and one more line would be. */
  lemma QuotaIsTheWholePart(lines: seq<Line>, ratio: real)
    requires lines != [] && ratio < 1.0
    ensures var printed, share := |KeptLines(Shortened(lines, ratio))|, |lines| as real * ratio;
      && 1 <= printed <= |lines|
      && (printed == 1 || printed as real <= share)
      && share < (printed + 1) as real
  {
    ShortenedFillsTheQuota(lines, ratio);
    TruncatedBelow(|lines|, ratio);
    TruncatedIsWholePart(|lines| as real * ratio);
  }

  lemma TruncatedIsWholePart(x: real)
    ensures x >= 0.0 ==> Truncated(x) as real <= x < (Truncated(x) + 1) as real
    ensures x < 0.0 ==> Truncated(x) <= 0
  {
  }

  /** Where the printed lines come from: half of them, rounded down but at least one, from
      the start, then one marker for all that is missing, and the rest from the end. */
  lemma PrintedFromBothEnds(lines: seq<Line>, ratio: real, k: nat)
    requires ratio < 1.0
    ensures var pieces := Shortened(lines, ratio);
      var printed := |KeptLines(pieces)|;
      var head := if printed >= 4 then printed / 2 else 1;
      && (printed == |lines| ==> |pieces| == printed && (k < printed ==> pieces[k] == Kept(lines[k])))
      && (printed < |lines| ==>
            && |pieces| == printed + 1
            && (k < head ==> pieces[k] == Kept(lines[k]))
            && pieces[head] == Skipped(|lines| - printed)
            && (head < k <= printed ==> pieces[k] == Kept(lines[|lines| - printed + k - 1])))
  {
    if lines == [] {
      KeepHasNoMarkers(lines);
    } else {
      ShortenedFillsTheQuota(lines, ratio);
    }
  }

  /** The head outweighs the tail only when a single line is kept. */
  lemma HeadOutweighsTailOnlyAlone(lines: seq<Line>, keep: int)
    requires 1 <= keep < |lines|
    ensures var pieces, head := Cut(lines, keep), HeadCount(keep);
      && pieces[head].Skipped?
      && (head > |pieces| - 1 - head <==> keep == 1)
  {
  }

  // ----- the structured mode -----

  function Chars(lines: seq<Line>): (n: int)
    ensures n >= 0
  {
    if lines == [] then 0 else |lines[0]| + Chars(lines[1..])
  }

  function TotalChars(blocks: seq<Block>): (n: int)
    ensures n >= StructuredChars(blocks)
  {
    if blocks == [] then 0 else Chars(blocks[0].lines) + TotalChars(blocks[1..])
  }

  function StructuredChars(blocks: seq<Block>): (n: int)
    ensures n >= 0
  {
    if blocks == [] then 0
    else (if blocks[0].kind != Prose then Chars(blocks[0].lines) else 0) + StructuredChars(blocks[1..])
  }

  function TotalSize(blocks: seq<Block>): (n: int)
    ensures n >= 1
  {
    if TotalChars(blocks) == 0 then 1 else TotalChars(blocks)
  }

  function ProseSize(blocks: seq<Block>): (n: int) {
    TotalSize(blocks) - StructuredChars(blocks)
  }

  /** The share of the prose that fits beside the structured blocks. */
  function ShareOf(total: int, structured: int, ratio: real): real
    requires structured < total
  {
    var target := Truncated(total as real * ratio) - structured;
    (if target > 0 then target else 0) as real / (total - structured) as real
  }

  function EffectiveRatio(blocks: seq<Block>, ratio: real): real
    requires ProseSize(blocks) > 0
  {
    ShareOf(TotalSize(blocks), StructuredChars(blocks), ratio)
  }

  lemma TruncatedBelow(n: int, ratio: real)
    requires n >= 1 && ratio < 1.0
    ensures Truncated(n as real * ratio) < n
  {
    assert n as real * ratio < n as real * 1.0;
  }

  lemma QuotientBelowOne(a: int, b: int)
    requires 0 <= a < b
    ensures 0.0 <= a as real / b as real < 1.0
  {
  }

  lemma ShareIsProper(total: int, structured: int, ratio: real)
    requires 0 <= structured < total && ratio < 1.0
    ensures 0.0 <= ShareOf(total, structured, ratio) < 1.0
  {
    TruncatedBelow(total, ratio);
    var target := Truncated(total as real * ratio) - structured;
    QuotientBelowOne(if target > 0 then target else 0, total - structured);
  }

  /** Below ratio 1 the effective ratio is a proper share, whatever the blocks. */
  lemma EffectiveRatioIsProper(blocks: seq<Block>, ratio: real)
    requires ratio < 1.0 && ProseSize(blocks) > 0
    ensures 0.0 <= EffectiveRatio(blocks, ratio) < 1.0
  {
    ShareIsProper(TotalSize(blocks), StructuredChars(blocks), ratio);
  }

  lemma {:induction false} CharsAddUp(a: seq<Line>, b: seq<Line>)
    ensures Chars(a + b) == Chars(a) + Chars(b)
    ensures forall line :: Chars([line]) == |line|
  {
    forall line ensures Chars([line]) == |line| {
      assert [line][1..] == [];
    }
    if a == [] {
      assert a + b == b;
    } else {
      assert (a + b)[1..] == a[1..] + b;
      CharsAddUp(a[1..], b);
    }
  }

  /** The lines of the code and table blocks. */
  function StructuredLines(blocks: seq<Block>): seq<Line> {
    if blocks == [] then []
    else (if blocks[0].kind == Prose then [] else blocks[0].lines) + StructuredLines(blocks[1..])
  }

  lemma {:induction false} SizesAreThoseOfTheLines(blocks: seq<Block>)
    ensures TotalChars(blocks) == Chars(LinesOf(blocks))
    ensures StructuredChars(blocks) == Chars(StructuredLines(blocks))
  {
    if blocks != [] {
      SizesAreThoseOfTheLines(blocks[1..]);
      CharsAddUp(blocks[0].lines, LinesOf(blocks[1..]));
      CharsAddUp(if blocks[0].kind == Prose then [] else blocks[0].lines, StructuredLines(blocks[1..]));
    }
  }

  lemma ShareTimesProse(total: int, structured: int, ratio: real)
    requires structured < total
    ensures var target := Truncated(total as real * ratio) - structured;
      ShareOf(total, structured, ratio) * (total - structured) as real == (if target > 0 then target else 0) as real
  {
  }

  /** `share` of the characters that are not structured makes `target` characters: those
      that the wanted part of the whole leaves, in whole characters, or none. */
  ghost predicate IsWhatIsLeft(share: real, total: int, structured: int, ratio: real, target: nat) {
    && share * (total - structured) as real == target as real
    && (target == 0 || (structured + target) as real <= total as real * ratio)
    && total as real * ratio < (structured + target + 1) as real
  }

  /** The prose gets what the whole text's share leaves beside the code and the tables,
      and nothing if they already fill it. */
  lemma ProseGetsWhatIsLeft(blocks: seq<Block>, ratio: real) returns (target: nat)
    requires 0.0 <= ratio && Chars(StructuredLines(blocks)) < Chars(LinesOf(blocks))
    ensures ProseSize(blocks) > 0
    ensures IsWhatIsLeft(EffectiveRatio(blocks, ratio), Chars(LinesOf(blocks)), Chars(StructuredLines(blocks)), ratio, target)
  {
    SizesAreThoseOfTheLines(blocks);
    target := ShareIsWhatIsLeft(TotalSize(blocks), StructuredChars(blocks), ratio);
  }

  /** Without any prose nothing is cut; and a text without characters has no share to give. */
  lemma NothingLeftForProse(blocks: seq<Block>, ratio: real)
    requires 0.0 <= ratio < 1.0
    ensures var total, structured := Chars(LinesOf(blocks)), Chars(StructuredLines(blocks));
      && (0 < total == structured ==> ProseSize(blocks) == 0)
      && (total == 0 ==> ProseSize(blocks) == 1 && EffectiveRatio(blocks, ratio) == 0.0)
  {
    SizesAreThoseOfTheLines(blocks);
    if Chars(LinesOf(blocks)) == 0 {
      TruncatedBelow(1, ratio);
    }
  }

  lemma ShareIsWhatIsLeft(total: int, structured: int, ratio: real) returns (target: nat)
    requires 0 <= structured < total && ratio >= 0.0
    ensures IsWhatIsLeft(ShareOf(total, structured, ratio), total, structured, ratio, target)
  {
    ShareTimesProse(total, structured, ratio);
    ShareIsPositive(total, ratio);
    target := LeftOver(total as real * ratio, structured);
  }

  lemma LeftOver(x: real, structured: int) returns (target: nat)
    requires x >= 0.0 && structured >= 0
    ensures target == if Truncated(x) - structured > 0 then Truncated(x) - structured else 0
    ensures target == 0 || (structured + target) as real <= x
    ensures x < (structured + target + 1) as real
  {
    TruncatedIsWholePart(x);
    target := if Truncated(x) - structured > 0 then Truncated(x) - structured else 0;
  }

  lemma ShareIsPositive(total: int, ratio: real)
    requires total >= 0 && ratio >= 0.0
    ensures total as real * ratio >= 0.0
  {
  }

  function BlockResult(block: Block, ratio: real): seq<Piece> {
    if block.kind != Prose then Keep(block.lines) else Shortened(block.lines, ratio)
  }

  function Flatten(parts: seq<seq<Piece>>): seq<Piece> {
    if parts == [] then [] else Flatten(parts[..|parts| - 1]) + parts[|parts| - 1]
  }

  function Results(blocks: seq<Block>, ratio: real): (parts: seq<seq<Piece>>)
    ensures |parts| == |blocks|
  {
    seq(|blocks|, k requires 0 <= k < |blocks| => BlockResult(blocks[k], ratio))
  }

  /** What shortening a parsed text comes to. */
  function CompactedBlocks(blocks: seq<Block>, ratio: real): seq<Piece> {
    if ProseSize(blocks) <= 0 then Keep(LinesOf(blocks))
    else Flatten(Results(blocks, EffectiveRatio(blocks, ratio)))
  }

  method CompactSegment(lines: seq<Line>, ratio: real, preserveStructured: bool) returns (pieces: seq<Piece>)
    ensures ratio >= 1.0 ==> pieces == Keep(lines)
    ensures ratio < 1.0 && !preserveStructured ==> pieces == Shortened(lines, ratio)
    ensures ratio < 1.0 && preserveStructured ==>
      forall blocks :: IsParse(blocks, lines) ==> pieces == CompactedBlocks(blocks, ratio)
  {
    if ratio >= 1.0 {
      return Keep(lines);
    }
    if !preserveStructured {
      pieces := CompactProseLines(lines, ratio);
      return;
    }
    var blocks := ParseBlocks(lines);
    forall other | IsParse(other, lines) ensures other == blocks {
      ParseIsUnique(other, blocks, lines);
    }
    ParseIsLossless(blocks, lines);
    if ProseSize(blocks) <= 0 {
      return Keep(lines);
    }
    pieces := CompactBlocks(blocks, EffectiveRatio(blocks, ratio));
  }

  method CompactBlocks(blocks: seq<Block>, effectiveRatio: real) returns (pieces: seq<Piece>)
    ensures pieces == Flatten(Results(blocks, effectiveRatio))
  {
    var parts: seq<seq<Piece>> := [];
    for i := 0 to |blocks|
      invariant |parts| == i
      invariant forall k :: 0 <= k < i ==> parts[k] == BlockResult(blocks[k], effectiveRatio)
    {
      var block := blocks[i];
      var part;
      if block.kind == Code || block.kind == Table {
        part := Keep(block.lines);
      } else {
        part := CompactProseLines(block.lines, effectiveRatio);
      }
      parts := parts + [part];
    }
    assert parts == Results(blocks, effectiveRatio);
    pieces := Flatten(parts);
  }

  function Tags(blocks: seq<Block>): seq<Tagged> {
    if blocks == [] then []
    else Tags(blocks[..|blocks| - 1]) + Tag(blocks[|blocks| - 1].lines, blocks[|blocks| - 1].kind == Prose)
  }

  lemma BlockResultExpands(block: Block, ratio: real)
    ensures Expands(BlockResult(block, ratio), Tag(block.lines, block.kind == Prose))
  {
    if block.kind != Prose {
      KeepExpands(block.lines, false);
    } else {
      ShortenedExpands(block.lines, ratio);
    }
  }

  lemma {:induction false} ResultsExpand(blocks: seq<Block>, ratio: real)
    ensures Expands(Flatten(Results(blocks, ratio)), Tags(blocks))
  {
    if blocks != [] {
      var front, last := blocks[..|blocks| - 1], blocks[|blocks| - 1];
      ResultsExpand(front, ratio);
      BlockResultExpands(last, ratio);
      assert Results(blocks, ratio)[..|blocks| - 1] == Results(front, ratio);
      ExpandsAppend(Flatten(Results(front, ratio)), Tags(front), BlockResult(last, ratio), Tag(last.lines, last.kind == Prose));
    }
  }

  lemma {:induction false} LinesOfAppend(blocks: seq<Block>, block: Block)
    ensures LinesOf(blocks + [block]) == LinesOf(blocks) + block.lines
  {
    if blocks == [] {
      assert LinesOf([block]) == block.lines + LinesOf([]);
    } else {
      assert (blocks + [block])[1..] == blocks[1..] + [block];
      LinesOfAppend(blocks[1..], block);
    }
  }

  lemma {:induction false} TagsSpellTheLines(blocks: seq<Block>)
    ensures Texts(Tags(blocks)) == LinesOf(blocks)
  {
    if blocks != [] {
      var front, last := blocks[..|blocks| - 1], blocks[|blocks| - 1];
      TagsSpellTheLines(front);
      LinesOfAppend(front, last);
      assert blocks == front + [last];
    }
  }

  lemma {:induction false} KeepExpandsTagged(lines: seq<Tagged>)
    ensures Expands(Keep(Texts(lines)), lines)
  {
    if lines != [] {
      KeepExpandsTagged(lines[1..]);
      assert Keep(Texts(lines))[1..] == Keep(Texts(lines[1..]));
    }
  }

  /** The structured output reads back as the text, and its markers hide prose
      only: code and table lines are all there, in order, and the printed lines
      plus the marker counts make up the input. */
  lemma StructuredOutputIsFaithful(lines: seq<Line>, blocks: seq<Block>, ratio: real)
    requires IsParse(blocks, lines)
    ensures var pieces := CompactedBlocks(blocks, ratio);
      && Texts(Tags(blocks)) == lines
      && Expands(pieces, Tags(blocks))
      && |KeptLines(pieces)| + SkippedTotal(pieces) == |lines|
      && IsSubsequence(KeptLines(pieces), lines)
      && IsSubsequence(Protected(Tags(blocks)), KeptLines(pieces))
  {
    ParseIsLossless(blocks, lines);
    TagsSpellTheLines(blocks);
    if ProseSize(blocks) <= 0 {
      KeepExpandsTagged(Tags(blocks));
    } else {
      ResultsExpand(blocks, EffectiveRatio(blocks, ratio));
    }
    NothingUnaccounted(CompactedBlocks(blocks, ratio), Tags(blocks));
  }

  /** In the structured mode below ratio 1 a prose block is cut exactly when it has
      two lines or more, and keeps its first line. */
  lemma EveryLongProseBlockIsCut(blocks: seq<Block>, ratio: real, k: nat)
    requires ratio < 1.0 && ProseSize(blocks) > 0
    requires k < |blocks| && blocks[k].kind == Prose && blocks[k].lines != []
    ensures var part, block := Results(blocks, EffectiveRatio(blocks, ratio))[k], blocks[k].lines;
      && part[0] == Kept(block[0])
      && (SkippedTotal(part) > 0 <==> |block| >= 2)
      && |KeptLines(part)| + SkippedTotal(part) == |block|
  {
    var effective := EffectiveRatio(blocks, ratio);
    EffectiveRatioIsProper(blocks, ratio);
    TruncatedBelow(|blocks[k].lines|, effective);
    ShortenedFillsTheQuota(blocks[k].lines, effective);
  }
}
