/**
 Splitting a document into fragments at separator lines. The input is the
 sequence of lines that the scanner delivers.
 */
module ReadDocument {

  /** Three dashes and then nothing but tabs, form feeds, carriage returns and spaces. */
  predicate IsSeparator(line: string) {
    && |line| >= 3 && line[..3] == "---"
    && forall i :: 3 <= i < |line| ==> line[i] in {'\t', '\U{000C}', '\r', ' '}
  }

  /** Dashes with blanks after them separate; anything more after the dashes, or anything before them, does not. */
  lemma SeparatorExactly(rest: string)
    ensures IsSeparator("---" + rest) <==> forall c :: c in rest ==> c == ' ' || c == '\t' || c == '\r' || c == '\U{000C}'
  {
    var line := "---" + rest;
    assert line[..3] == "---" && forall i :: 3 <= i < |line| ==> line[i] == rest[i - 3];
    if forall c :: c in rest ==> c == ' ' || c == '\t' || c == '\r' || c == '\U{000C}' {
      assert forall i :: 3 <= i < |line| ==> line[i] in rest;
    } else {
      var c :| c in rest && c != ' ' && c != '\t' && c != '\r' && c != '\U{000C}';
      var i :| 0 <= i < |rest| && rest[i] == c;
      assert line[i + 3] == c;
    }
  }

  lemma OnlyDashesFirst(line: string)
    requires IsSeparator(line)
    ensures line == "---" + line[3..]
  {
  }

  lemma SeparatorExamples()
    ensures IsSeparator("---") && IsSeparator("---  ") && IsSeparator("---\t\r")
    ensures !IsSeparator("--- x") && !IsSeparator("----") && !IsSeparator("--") && !IsSeparator(" ---") && !IsSeparator("")
  {
    assert " ---"[..3] == " --";
    assert "--- x"[4] == 'x' && "----"[3] == '-';
  }

  /** The lines a fragment came from, counted from one, both ends included. */
  datatype Location = Location(start: nat, end: nat)

  datatype Fragment = Fragment(bytes: string, location: Location)

  // ---- The declarative split ----

  /** The lines from first up to, but not including, end. */
  datatype Block = Block(first: nat, end: nat)

  ghost predicate SeparatorAt(lines: seq<string>, i: int) {
    0 <= i < |lines| && IsSeparator(lines[i])
  }

  ghost predicate Plain(lines: seq<string>, b: Block) {
    && b.first <= b.end <= |lines|
    && forall i :: b.first <= i < b.end ==> !SeparatorAt(lines, i)
  }

  /** A separator-free stretch that a separator or the edge of the input bounds on either side. */
  ghost predicate IsBlock(lines: seq<string>, b: Block) {
    && Plain(lines, b)
    && (b.first == 0 || SeparatorAt(lines, b.first - 1))
    && (b.end == |lines| || SeparatorAt(lines, b.end))
  }

  ghost predicate HasText(lines: seq<string>, b: Block) {
    b.end <= |lines| && exists i :: b.first <= i < b.end && lines[i] != ""
  }

  ghost predicate Ordered(bs: seq<Block>) {
    forall j, k :: 0 <= j < k < |bs| ==> Before(bs[j], bs[k])
  }

  predicate Before(b: Block, c: Block) {
    b.first <= b.end < c.first
  }

  /** The blocks that hold text, in order, and no others. */
  ghost predicate Blocks(lines: seq<string>, bs: seq<Block>) {
    && (forall k :: 0 <= k < |bs| ==> IsBlock(lines, bs[k]) && HasText(lines, bs[k]))
    && Ordered(bs)
    && (forall b :: IsBlock(lines, b) && HasText(lines, b) ==> b in bs)
  }

  function DropEmpty(block: seq<string>): seq<string> {
    if block == [] || block[0] != "" then block else DropEmpty(block[1..])
  }

  function JoinLines(block: seq<string>): string {
    if block == [] then ""
    else if |block| == 1 then block[0]
    else JoinLines(block[..|block| - 1]) + "\n" + block[|block| - 1]
  }

  /** A block without its leading empty lines; a separator leaves its newline behind. */
  function FragmentOf(lines: seq<string>, b: Block): Fragment
    requires b.first <= b.end <= |lines|
  {
    Fragment(JoinLines(DropEmpty(lines[b.first..b.end])) + if b.end < |lines| then "\n" else "",
             Location(b.first + 1, b.end))
  }

  // ---- The text of a block ----

  lemma {:induction false} DropEmptyNext(block: seq<string>, line: string)
    ensures DropEmpty(block + [line]) ==
            if DropEmpty(block) != [] || line != "" then DropEmpty(block) + [line] else []
    decreases |block|
  {
    if block == [] {
      assert [] + [line] == [line];
      assert [line][1..] == [];
    } else if block[0] == "" {
      assert (block + [line])[1..] == block[1..] + [line];
      DropEmptyNext(block[1..], line);
    }
  }

  lemma {:induction false} DropEmptyText(block: seq<string>)
    ensures DropEmpty(block) != [] ==> DropEmpty(block)[0] != ""
    ensures DropEmpty(block) != [] <==> exists i :: 0 <= i < |block| && block[i] != ""
    decreases |block|
  {
    if block != [] && block[0] == "" {
      DropEmptyText(block[1..]);
      if exists i :: 0 <= i < |block| && block[i] != "" {
        var i :| 0 <= i < |block| && block[i] != "";
        assert block[1..][i - 1] != "";
      }
      if DropEmpty(block) != [] {
        var i :| 0 <= i < |block[1..]| && block[1..][i] != "";
        assert block[i + 1] != "";
      }
    }
  }

  lemma {:induction false} JoinNonEmpty(block: seq<string>)
    requires block != [] && block[0] != ""
    ensures JoinLines(block) != ""
    decreases |block|
  {
  }

  /** What reading one more line does to the text gathered so far. */
  lemma TextNext(lines: seq<string>, a: nat, k: nat)
    requires a <= k < |lines|
    ensures var text := JoinLines(DropEmpty(lines[a..k]));
            && (text != "" <==> HasText(lines, Block(a, k)))
            && JoinLines(DropEmpty(lines[a..k + 1])) == if text != "" then text + "\n" + lines[k] else lines[k]
  {
    var block := lines[a..k];
    assert lines[a..k + 1] == block + [lines[k]];
    DropEmptyNext(block, lines[k]);
    TextEmpty(lines, a, k);
    var kept := DropEmpty(block);
    assert (kept + [lines[k]])[..|kept|] == kept;
  }

  lemma TextEmpty(lines: seq<string>, a: nat, k: nat)
    requires a <= k <= |lines|
    ensures JoinLines(DropEmpty(lines[a..k])) != "" <==> HasText(lines, Block(a, k))
    ensures DropEmpty(lines[a..k]) != [] <==> HasText(lines, Block(a, k))
  {
    var block := lines[a..k];
    DropEmptyText(block);
    if DropEmpty(block) != [] {
      JoinNonEmpty(DropEmpty(block));
      var i :| 0 <= i < |block| && block[i] != "";
      assert lines[a + i] != "";
    }
    if HasText(lines, Block(a, k)) {
      var i :| a <= i < k && lines[i] != "";
      assert block[i - a] != "";
    }
  }

  /** The parts are those of the blocks that hold text. */
  ghost predicate Splits(lines: seq<string>, parts: seq<Fragment>) {
    exists bs: seq<Block> :: Blocks(lines, bs) && FragmentsOf(lines, bs, parts)
  }

  lemma EmptyText(lines: seq<string>)
    ensures forall a: nat :: a <= |lines| ==> JoinLines(DropEmpty(lines[a..a])) == ""
    ensures BlocksBefore(lines, [], 0)
  {
    assert forall a: nat :: a <= |lines| ==> lines[a..a] == [];
  }

  // ---- The loop ----

  ghost predicate FragmentsOf(lines: seq<string>, bs: seq<Block>, parts: seq<Fragment>) {
    && |parts| == |bs|
    && forall k :: 0 <= k < |bs| ==> bs[k].first <= bs[k].end <= |lines| && parts[k] == FragmentOf(lines, bs[k])
  }

  /** The blocks that a separator before line a has ended. */
  ghost predicate BlocksBefore(lines: seq<string>, bs: seq<Block>, a: nat) {
    && (forall k :: 0 <= k < |bs| ==> IsBlock(lines, bs[k]) && HasText(lines, bs[k]) && bs[k].first <= bs[k].end < a)
    && Ordered(bs)
    && (forall b :: IsBlock(lines, b) && HasText(lines, b) && b.first < a ==> b in bs)
  }

  /** Two blocks that start at the same place or share a line are the same. */
  lemma BlocksAgree(lines: seq<string>, b: Block, c: Block)
    requires IsBlock(lines, b) && IsBlock(lines, c) && b.first <= c.first
    ensures b.first <= b.end && (b == c || b.end < c.first)
  {
    assert c.first == 0 || SeparatorAt(lines, c.first - 1);
    assert b.end == |lines| || SeparatorAt(lines, b.end);
    assert c.end == |lines| || SeparatorAt(lines, c.end);
  }

  lemma BlockDone(lines: seq<string>, bs: seq<Block>, a: nat, k: nat)
    requires a <= k <= |lines| && IsBlock(lines, Block(a, k)) && BlocksBefore(lines, bs, a)
    ensures BlocksBefore(lines, if HasText(lines, Block(a, k)) then bs + [Block(a, k)] else bs, k + 1)
  {
    hide IsBlock, HasText;
    var b := Block(a, k);
    var next := if HasText(lines, b) then bs + [b] else bs;
    forall c | IsBlock(lines, c) && HasText(lines, c) && c.first < k + 1
      ensures c in next
    {
      if c.first < a {
        assert c in bs;
      } else {
        BlocksAgree(lines, b, c);
        assert c == b;
        assert next[|bs|] == b;
      }
    }
  }

  lemma AllBlocks(lines: seq<string>, bs: seq<Block>)
    requires BlocksBefore(lines, bs, |lines| + 1)
    ensures Blocks(lines, bs)
  {
  }

  /** Reads the fragments of a document, one line at a time. */
  method ReadDocument(lines: seq<string>) returns (parts: seq<Fragment>)
    ensures Splits(lines, parts)
  {
    hide IsSeparator, JoinLines, DropEmpty, HasText, BlocksBefore;
    EmptyText(lines);
    var startLine, currentLine := 0, 0;
    var buf := "";
    parts := [];
    ghost var bs: seq<Block> := [];
    ghost var a := 0;
    for k := 0 to |lines|
      invariant currentLine == k && a <= k
      invariant startLine == if a == k then 0 else a + 1
      invariant Plain(lines, Block(a, k)) && (a == 0 || SeparatorAt(lines, a - 1))
      invariant buf == JoinLines(DropEmpty(lines[a..k]))
      invariant BlocksBefore(lines, bs, a)
      invariant FragmentsOf(lines, bs, parts)
    {
      TextNext(lines, a, k);
      currentLine := currentLine + 1;
      if startLine == 0 {
        startLine := currentLine;
      }
      if |buf| > 0 {
        buf := buf + "\n";
      }
      if IsSeparator(lines[k]) {
        BlockDone(lines, bs, a, k);
        if |buf| > 0 {
          parts := parts + [Fragment(buf, Location(startLine, currentLine - 1))];
          bs := bs + [Block(a, k)];
        }
        startLine := 0;
        buf := "";
        a := k + 1;
        continue;
      }
      buf := buf + lines[k];
    }
    TextEmpty(lines, a, |lines|);
    BlockDone(lines, bs, a, |lines|);
    if |buf| > 0 {
      parts := parts + [Fragment(buf, Location(startLine, currentLine))];
      bs := bs + [Block(a, |lines|)];
    }
    AllBlocks(lines, bs);
  }

  // ---- Line accounting ----

  lemma {:induction false} StartOf(lines: seq<string>, i: nat) returns (a: nat)
    requires i <= |lines|
    ensures Plain(lines, Block(a, i)) && (a == 0 || SeparatorAt(lines, a - 1))
    decreases i
  {
    if i == 0 || IsSeparator(lines[i - 1]) {
      a := i;
    } else {
      a := StartOf(lines, i - 1);
    }
  }

  lemma {:induction false} EndOf(lines: seq<string>, i: nat) returns (e: nat)
    requires i <= |lines|
    ensures Plain(lines, Block(i, e)) && (e == |lines| || SeparatorAt(lines, e))
    decreases |lines| - i
  {
    if i == |lines| || IsSeparator(lines[i]) {
      e := i;
    } else {
      e := EndOf(lines, i + 1);
    }
  }

  predicate Covers(f: Fragment, line: nat) {
    f.location.start <= line <= f.location.end
  }

  /** Locations are disjoint and increasing. */
  lemma LocationsIncrease(lines: seq<string>, parts: seq<Fragment>, j: nat, k: nat)
    requires Splits(lines, parts) && j < k < |parts|
    ensures parts[j].location.end < parts[k].location.start
  {
    var bs: seq<Block> :| Blocks(lines, bs) && FragmentsOf(lines, bs, parts);
    hide Blocks;
    BlocksOrdered(lines, bs, j, k);
  }

  /** They cover every non-empty line that is not a separator, and no separator. Lines are counted from one. */
  lemma LinesAccountedFor(lines: seq<string>, parts: seq<Fragment>, i: nat)
    requires Splits(lines, parts) && i < |lines|
    ensures IsSeparator(lines[i]) ==> forall k :: 0 <= k < |parts| ==> !Covers(parts[k], i + 1)
    ensures lines[i] != "" && !IsSeparator(lines[i]) ==> exists k :: 0 <= k < |parts| && Covers(parts[k], i + 1)
  {
    hide IsSeparator, Blocks;
    var bs: seq<Block> :| Blocks(lines, bs) && FragmentsOf(lines, bs, parts);
    BlocksAccountedFor(lines, bs, i);
    assert forall k :: 0 <= k < |bs| ==> (Covers(parts[k], i + 1) <==> Holds(bs[k], i));
  }

  /** Two splits of the same lines are the same. */
  lemma SplitUnique(lines: seq<string>, a: seq<Fragment>, b: seq<Fragment>)
    requires Splits(lines, a) && Splits(lines, b)
    ensures a == b
  {
    hide Blocks, FragmentOf;
    var bs: seq<Block> :| Blocks(lines, bs) && FragmentsOf(lines, bs, a);
    var cs: seq<Block> :| Blocks(lines, cs) && FragmentsOf(lines, cs, b);
    BlocksUnique(lines, bs, cs, 0);
  }

  predicate Holds(b: Block, i: int) {
    b.first <= i < b.end
  }

  lemma BlocksAccountedFor(lines: seq<string>, bs: seq<Block>, i: nat)
    requires Blocks(lines, bs) && i < |lines|
    ensures SeparatorAt(lines, i) ==> forall k :: 0 <= k < |bs| ==> !Holds(bs[k], i)
    ensures lines[i] != "" && !SeparatorAt(lines, i) ==> exists k :: 0 <= k < |bs| && Holds(bs[k], i)
  {
    hide IsSeparator, Ordered;
    if SeparatorAt(lines, i) {
      forall k | 0 <= k < |bs|
        ensures !Holds(bs[k], i)
      {
        assert IsBlock(lines, bs[k]);
      }
    } else if lines[i] != "" {
      var a := StartOf(lines, i);
      var e := EndOf(lines, i);
      assert IsBlock(lines, Block(a, e)) && HasText(lines, Block(a, e));
      var k :| 0 <= k < |bs| && bs[k] == Block(a, e);
      assert Holds(bs[k], i);
    }
  }

  /** The blocks of a document are determined by its lines. */
  lemma {:induction false} BlocksUnique(lines: seq<string>, bs: seq<Block>, cs: seq<Block>, k: nat)
    requires Blocks(lines, bs) && Blocks(lines, cs) && k <= |bs| && k <= |cs|
    requires bs[..k] == cs[..k]
    ensures bs == cs
    decreases |bs| - k
  {
    hide IsBlock, HasText;
    if k < |bs| && k < |cs| {
      FirstOf(lines, bs, cs, k);
      FirstOf(lines, cs, bs, k);
      assert IsBlock(lines, bs[k]) && IsBlock(lines, cs[k]);
      BlocksAgree(lines, bs[k], cs[k]);
      assert bs[..k + 1] == bs[..k] + [bs[k]] && cs[..k + 1] == cs[..k] + [cs[k]];
      BlocksUnique(lines, bs, cs, k + 1);
    } else if k < |bs| {
      FirstOf(lines, bs, cs, k);
    } else if k < |cs| {
      FirstOf(lines, cs, bs, k);
    }
  }

  /** A block listed k-th in one list is not listed before k in a list that agrees so far. */
  lemma FirstOf(lines: seq<string>, bs: seq<Block>, cs: seq<Block>, k: nat)
    requires Blocks(lines, bs) && Blocks(lines, cs) && k < |bs| && k <= |cs| && bs[..k] == cs[..k]
    ensures k < |cs| && cs[k].first <= bs[k].first
  {
    var m := Listed(lines, bs, cs, k);
    hide Blocks;
    assert forall i :: 0 <= i < k ==> cs[..k][i] == bs[..k][i];
    if m < k {
      BlocksOrdered(lines, bs, m, k);
      assert false;
    } else if k < m {
      BlocksOrdered(lines, cs, k, m);
    }
  }

  lemma Listed(lines: seq<string>, bs: seq<Block>, cs: seq<Block>, k: nat) returns (m: nat)
    requires Blocks(lines, bs) && Blocks(lines, cs) && k < |bs|
    ensures m < |cs| && cs[m] == bs[k]
  {
    hide IsBlock, HasText, Ordered;
    assert bs[k] in cs;
    m :| 0 <= m < |cs| && cs[m] == bs[k];
  }

  lemma BlocksOrdered(lines: seq<string>, bs: seq<Block>, j: nat, k: nat)
    requires Blocks(lines, bs) && j < k < |bs|
    ensures Before(bs[j], bs[k])
  {
    hide IsBlock, HasText;
  }

  // ---- Bytes and locations ----

  /** The lines of a location as text, with a newline where a separator follows. */
  function TextAt(lines: seq<string>, at: Location): string
    requires 0 < at.start && at.start - 1 <= at.end <= |lines|
  {
    JoinLines(lines[at.start - 1..at.end]) + if at.end < |lines| then "\n" else ""
  }

  lemma {:induction false} JoinFront(block: seq<string>)
    requires |block| > 1
    ensures JoinLines(block) == block[0] + "\n" + JoinLines(block[1..])
    decreases |block|
  {
    var n := |block| - 1;
    if n == 1 {
      assert block[..1] == [block[0]] && block[1..] == [block[1]];
    } else {
      JoinFront(block[..n]);
      assert block[..n][1..] == block[1..][..n - 1];
    }
  }

  lemma {:induction false} DropShortens(block: seq<string>)
    requires DropEmpty(block) != []
    ensures |JoinLines(DropEmpty(block))| <= |JoinLines(block)|
    ensures block[0] == "" ==> |JoinLines(DropEmpty(block))| < |JoinLines(block)|
    decreases |block|
  {
    if block[0] == "" {
      assert block == [""] ==> block[1..] == [];
      JoinFront(block);
      DropShortens(block[1..]);
    }
  }

  lemma BlockBytes(lines: seq<string>, b: Block)
    requires b.first <= b.end && HasText(lines, b)
    ensures b.first < b.end
    ensures FragmentOf(lines, b).bytes == TextAt(lines, Location(b.first + 1, b.end)) <==> lines[b.first] != ""
  {
    var block := lines[b.first..b.end];
    assert block != [] && block[0] == lines[b.first];
    TextEmpty(lines, b.first, b.end);
    DropShortens(block);
    hide JoinLines;
  }

  /** A fragment's bytes are the lines of its location exactly when the first of them is not empty. */
  lemma BytesAreLines(lines: seq<string>, parts: seq<Fragment>, k: nat)
    requires Splits(lines, parts) && k < |parts|
    ensures 0 < parts[k].location.start <= parts[k].location.end <= |lines|
    ensures parts[k].bytes == TextAt(lines, parts[k].location) <==> lines[parts[k].location.start - 1] != ""
  {
    hide IsBlock, HasText, TextAt;
    var bs: seq<Block> :| Blocks(lines, bs) && FragmentsOf(lines, bs, parts);
    BlockBytes(lines, bs[k]);
  }

  lemma LeadingBlock()
    ensures Blocks(["", "a"], [Block(0, 2)])
  {
    var lines, b := ["", "a"], Block(0, 2);
    assert !SeparatorAt(lines, 0) && !SeparatorAt(lines, 1);
    assert lines[1] != "";
    forall c | IsBlock(lines, c)
      ensures c == b
    {
      hide IsSeparator;
      assert c.first == 0 || c.first == 1 || c.first == 2;
      assert c.end == 0 || c.end == 1 || c.end == 2;
    }
  }

  /** An empty line in front: the location starts with it, and the bytes do not. */
  lemma LeadingLineLost()
    ensures Splits(["", "a"], [Fragment("a", Location(1, 2))]) && TextAt(["", "a"], Location(1, 2)) == "\na"
  {
    hide Blocks;
    LeadingBlock();
    var lines := ["", "a"];
    assert lines[0..2] == lines && lines[1..] == ["a"] && lines[..1] == [""];
    assert FragmentsOf(lines, [Block(0, 2)], [Fragment("a", Location(1, 2))]);
  }

  // ---- Printing and reading back ----

  /** A fragment that survives printing: it starts with text and holds no separator. */
  predicate Printable(f: seq<string>) {
    f != [] && f[0] != "" && forall i :: 0 <= i < |f| ==> !IsSeparator(f[i])
  }

  lemma PrintableStarts(f: seq<string>)
    requires Printable(f)
    ensures DropEmpty(f) == f
  {
  }

  /** The fragments with a separator line between each two. */
  function Print(fs: seq<seq<string>>): seq<string> {
    if fs == [] then []
    else if |fs| == 1 then fs[0]
    else Print(fs[..|fs| - 1]) + ["---"] + fs[|fs| - 1]
  }

  /** The lines printed before fragment k. */
  function Offset(fs: seq<seq<string>>, k: nat): nat
    requires k <= |fs|
  {
    if k == 0 then 0 else Offset(fs, k - 1) + |fs[k - 1]| + 1
  }

  lemma {:induction false} OffsetPrefix(fs: seq<seq<string>>, n: nat, k: nat)
    requires k <= n <= |fs|
    ensures Offset(fs[..n], k) == Offset(fs, k)
    decreases k
  {
    if k > 0 {
      OffsetPrefix(fs, n, k - 1);
    }
  }

  lemma {:induction false} OffsetUp(fs: seq<seq<string>>, j: nat, k: nat)
    requires j < k <= |fs|
    ensures Offset(fs, j) + |fs[j]| < Offset(fs, k)
    decreases k
  {
    if j < k - 1 {
      OffsetUp(fs, j, k - 1);
    }
  }

  lemma OffsetNext(fs: seq<seq<string>>, k: nat)
    requires k < |fs|
    ensures Offset(fs, 0) == 0 && Offset(fs, k + 1) == Offset(fs, k) + |fs[k]| + 1
  {
  }

  lemma DashesSeparate()
    ensures IsSeparator("---")
  {
  }

  lemma PrintNext(fs: seq<seq<string>>)
    requires fs != []
    ensures Print(fs) == if |fs| == 1 then fs[0] else Print(fs[..|fs| - 1]) + ["---"] + fs[|fs| - 1]
  {
  }

  /** A fragment's lines stand at an offset, with a separator after them or nothing at all. */
  predicate Lands(lines: seq<string>, o: nat, f: seq<string>) {
    && o + |f| <= |lines| && lines[o..o + |f|] == f
    && (o + |f| < |lines| ==> lines[o + |f|] == "---")
  }

  lemma LandsInFront(printed: seq<string>, last: seq<string>, o: nat, f: seq<string>)
    requires Lands(printed, o, f)
    ensures Lands(printed + ["---"] + last, o, f)
  {
    var lines := printed + ["---"] + last;
    assert lines[o..o + |f|] == printed[o..o + |f|];
  }

  lemma LandsLast(printed: seq<string>, last: seq<string>)
    ensures Lands(printed + ["---"] + last, |printed| + 1, last)
  {
  }

  lemma {:induction false} PrintLength(fs: seq<seq<string>>)
    requires fs != []
    ensures |Print(fs)| == Offset(fs, |fs|) - 1
    decreases |fs|
  {
    var n := |fs| - 1;
    if n > 0 {
      PrintLength(fs[..n]);
      OffsetPrefix(fs, n, n);
    }
  }

  /** Where each fragment and each separator lands. */
  lemma {:induction false} PrintLayout(fs: seq<seq<string>>, k: nat)
    requires k < |fs|
    ensures Lands(Print(fs), Offset(fs, k), fs[k])
    decreases |fs|
  {
    OffsetNext(fs, k);
    PrintNext(fs);
    hide Print, Offset, Lands;
    var n := |fs| - 1;
    if n == 0 {
      LandsAlone(fs[0]);
    } else if k < n {
      PrintLayout(fs[..n], k);
      OffsetPrefix(fs, n, k);
      LandsInFront(Print(fs[..n]), fs[n], Offset(fs, k), fs[k]);
    } else {
      PrintLength(fs[..n]);
      OffsetPrefix(fs, n, n);
      LandsLast(Print(fs[..n]), fs[n]);
    }
  }

  lemma LandsAlone(f: seq<string>)
    ensures Lands(f, 0, f)
  {
  }

  /** The last fragment ends the document, and no other does. */
  lemma PrintEnds(fs: seq<seq<string>>, k: nat)
    requires k < |fs|
    ensures Offset(fs, k) + |fs[k]| == |Print(fs)| <==> k + 1 == |fs|
  {
    PrintLength(fs);
    OffsetNext(fs, k);
    if k + 1 < |fs| {
      OffsetUp(fs, k + 1, |fs|);
    }
  }

  function PrintedBlock(fs: seq<seq<string>>, k: nat): Block
    requires k < |fs|
  {
    Block(Offset(fs, k), Offset(fs, k) + |fs[k]|)
  }

  lemma PrintedLine(fs: seq<seq<string>>, k: nat, i: nat)
    requires k < |fs| && i < |fs[k]|
    ensures Offset(fs, k) + i < |Print(fs)| && Print(fs)[Offset(fs, k) + i] == fs[k][i]
  {
    hide Print, Offset;
    PrintLayout(fs, k);
    var o := Offset(fs, k);
    assert Print(fs)[o..o + |fs[k]|][i] == Print(fs)[o + i];
  }

  lemma PrintedPlain(fs: seq<seq<string>>, k: nat)
    requires k < |fs| && Printable(fs[k])
    ensures Plain(Print(fs), PrintedBlock(fs, k)) && HasText(Print(fs), PrintedBlock(fs, k))
  {
    hide Print, Offset, IsSeparator;
    PrintLayout(fs, k);
    var lines, b := Print(fs), PrintedBlock(fs, k);
    PrintedLine(fs, k, 0);
    assert lines[b.first] != "";
    forall i | b.first <= i < b.end
      ensures !SeparatorAt(lines, i)
    {
      PrintedLine(fs, k, i - b.first);
    }
  }

  lemma PrintedEdges(fs: seq<seq<string>>, k: nat)
    requires k < |fs|
    ensures k == 0 ==> PrintedBlock(fs, k).first == 0
    ensures k > 0 ==> SeparatorAt(Print(fs), PrintedBlock(fs, k).first - 1)
    ensures PrintedBlock(fs, k).end == |Print(fs)| || SeparatorAt(Print(fs), PrintedBlock(fs, k).end)
  {
    hide Print, Offset, IsSeparator;
    PrintLayout(fs, k);
    DashesSeparate();
    OffsetNext(fs, k);
    if k > 0 {
      PrintLayout(fs, k - 1);
      OffsetNext(fs, k - 1);
    }
  }

  lemma PrintedIsBlock(fs: seq<seq<string>>, k: nat)
    requires k < |fs| && Printable(fs[k])
    ensures IsBlock(Print(fs), PrintedBlock(fs, k)) && HasText(Print(fs), PrintedBlock(fs, k))
  {
    hide Print, Offset, SeparatorAt, Printable;
    PrintedPlain(fs, k);
    PrintedEdges(fs, k);
  }

  /** Every printed line is in some fragment or is the separator after one. */
  lemma {:induction false} LineLocated(fs: seq<seq<string>>, n: nat, i: nat) returns (k: nat)
    requires n <= |fs| && i < Offset(fs, n)
    ensures k < n && Offset(fs, k) <= i <= Offset(fs, k) + |fs[k]|
    decreases n
  {
    if i < Offset(fs, n - 1) {
      k := LineLocated(fs, n - 1, i);
    } else {
      k := n - 1;
    }
  }

  /** The printed blocks are all there is. */
  lemma PrintedBlocks(fs: seq<seq<string>>)
    requires forall j :: 0 <= j < |fs| ==> Printable(fs[j])
    ensures Blocks(Print(fs), seq(|fs|, k requires 0 <= k < |fs| => PrintedBlock(fs, k)))
  {
    hide Print, Offset, Plain, SeparatorAt, Printable;
    var lines := Print(fs);
    var bs := seq(|fs|, k requires 0 <= k < |fs| => PrintedBlock(fs, k));
    forall k | 0 <= k < |bs|
      ensures IsBlock(lines, bs[k]) && HasText(lines, bs[k])
    {
      PrintedIsBlock(fs, k);
    }
    forall j, k | 0 <= j < k < |bs|
      ensures Before(bs[j], bs[k])
    {
      OffsetUp(fs, j, k);
    }
    forall b | IsBlock(lines, b) && HasText(lines, b)
      ensures b in bs
    {
      var k := PrintedBlockFound(fs, b);
      assert b == bs[k];
    }
  }

  lemma PrintedBlockFound(fs: seq<seq<string>>, b: Block) returns (k: nat)
    requires forall j :: 0 <= j < |fs| ==> Printable(fs[j])
    requires IsBlock(Print(fs), b) && HasText(Print(fs), b)
    ensures k < |fs| && b == PrintedBlock(fs, k)
  {
    hide Print, Offset, IsSeparator, Printable;
    var lines := Print(fs);
    var i :| b.first <= i < b.end && lines[i] != "";
    PrintedLength(fs);
    k := LineLocated(fs, |fs|, i);
    PrintLayout(fs, k);
    PrintedIsBlock(fs, k);
    DashesSeparate();
    var c := PrintedBlock(fs, k);
    assert c.first <= i < c.end;
    assert b.first <= c.first ==> b == c by {
      if b.first <= c.first {
        BlocksAgree(lines, b, c);
      }
    }
    assert c.first <= b.first ==> b == c by {
      if c.first <= b.first {
        BlocksAgree(lines, c, b);
      }
    }
  }

  lemma PrintedLength(fs: seq<seq<string>>)
    ensures |Print(fs)| == if fs == [] then 0 else Offset(fs, |fs|) - 1
  {
    if fs != [] {
      PrintLength(fs);
    }
  }

  /** The fragment that printing makes of the lines of one. */
  function Printed(fs: seq<seq<string>>, k: nat): Fragment
    requires k < |fs|
  {
    Fragment(JoinLines(fs[k]) + if k + 1 < |fs| then "\n" else "", Location(Offset(fs, k) + 1, Offset(fs, k) + |fs[k]|))
  }

  lemma PrintedFragment(fs: seq<seq<string>>, k: nat)
    requires k < |fs| && Printable(fs[k])
    ensures PrintedBlock(fs, k).end <= |Print(fs)| && FragmentOf(Print(fs), PrintedBlock(fs, k)) == Printed(fs, k)
  {
    hide Print, Offset, Printable;
    PrintLayout(fs, k);
    PrintEnds(fs, k);
    PrintableStarts(fs[k]);
  }

  /** Reading back what was printed gives the same fragments, at the places they were printed. */
  lemma ReadsBack(fs: seq<seq<string>>, parts: seq<Fragment>)
    requires forall j :: 0 <= j < |fs| ==> Printable(fs[j])
    requires Splits(Print(fs), parts)
    ensures parts == seq(|fs|, k requires 0 <= k < |fs| => Printed(fs, k))
  {
    hide Blocks, FragmentOf, Print, Printed, PrintedBlock, Printable;
    var bs: seq<Block> :| Blocks(Print(fs), bs) && FragmentsOf(Print(fs), bs, parts);
    PrintedBlocks(fs);
    var cs := seq(|fs|, k requires 0 <= k < |fs| => PrintedBlock(fs, k));
    BlocksUnique(Print(fs), bs, cs, 0);
    forall k | 0 <= k < |fs|
      ensures parts[k] == Printed(fs, k)
    {
      PrintedFragment(fs, k);
      assert bs[k] == PrintedBlock(fs, k);
    }
  }
}
