/** How the released text of several files can be taken apart again: a header line inside a content reads as the
    start of another file, and nothing else does. */
module VerificationReadings {
  import opened JsonCompleteness
  import opened VerificationModel
  import opened VerificationChain

  /** Inside the content is a header line, from `i` to `e`: there is something above and below it, and its path is
      spelt as a header spells it. */
  ghost predicate Splits(c: string, i: nat, e: nat) {
    && 0 < i && HeaderLine(c, i) && i + 6 <= e < |c| - 1 && c[e] == '\n'
    && '\n' !in c[i + 6..e] && Normalize(c[i + 6..e]) == c[i + 6..e]
  }

  ghost predicate HasSplit(c: string) {
    exists i, e :: Splits(c, i, e)
  }

  /** The two files a content with such a line is taken for. */
  function Halves(f: CandidateFile, i: nat, e: nat): seq<CandidateFile>
    requires i + 6 <= e < |f.content|
  {
    [f.(content := f.content[..i]), CandidateFile(f.content[i + 6..e], f.content[e + 1..])]
  }

  /** `gs` are the files of `fs`, the block of each read as one file or more. */
  ghost predicate Rereads(gs: seq<CandidateFile>, fs: seq<CandidateFile>)
    decreases |fs|
  {
    if fs == [] then gs == []
    else exists k :: 0 < k <= |gs| && Blocks(gs[..k]) == FileBlock(fs[0]) && Rereads(gs[k..], fs[1..])
  }

  ghost predicate AllReadable(files: seq<CandidateFile>) {
    forall f :: f in files ==> Readable(f)
  }

  lemma TwoBlocks(f: CandidateFile, g: CandidateFile)
    ensures Blocks([f, g]) == FileBlock(f) + FileBlock(g)
  {
    hide FileBlock;
    BlocksFront([f, g]);
    BlocksFront([g]);
    assert [f, g][1..] == [g] && [g][1..] == [];
  }

  lemma HalvesRead(f: CandidateFile, i: nat, e: nat)
    requires Readable(f) && Splits(f.content, i, e)
    ensures Blocks(Halves(f, i, e)) == FileBlock(f) && AllReadable(Halves(f, i, e))
  {
    hide Blocks, Normalize, FileBlock;
    var c := f.content;
    var left, path, below := c[..i], c[i + 6..e], c[e + 1..];
    var first, second := f.(content := left), CandidateFile(path, below);
    assert Readable(first) by { assert left[|left| - 1] == '\n'; }
    assert Readable(second) by { assert below[|below| - 1] == c[|c| - 1]; }
    ContentParts(c, i, e);
    TwoBlocks(first, second);
    BlockShape(first, FileBlock(second));
    BlockShape(second, "");
    BlockShape(f, "");
    NothingMore(below, FileBlock(f));
    NothingMore(c, FileBlock(second));
  }

  lemma ContentParts(c: string, i: nat, e: nat)
    requires Splits(c, i, e)
    ensures c == c[..i] + (FILE_HEADER + (c[i + 6..e] + ("\n" + c[e + 1..])))
  {
    hide Normalize;
    assert c[i..i + 6] == FILE_HEADER;
    assert c[i..] == c[i..i + 6] + c[i + 6..] && c[i + 6..] == c[i + 6..e] + c[e..] && c[e..] == [c[e]] + c[e + 1..];
  }

  lemma NothingMore(a: string, b: string)
    ensures a + "" == a && b + "" == b
  {
  }

  lemma RereadsStep(gs: seq<CandidateFile>, fs: seq<CandidateFile>, head: seq<CandidateFile>, f: CandidateFile)
    requires head != [] && Blocks(head) == FileBlock(f) && Rereads(gs, fs)
    ensures Rereads(head + gs, [f] + fs)
  {
    var all, k := head + gs, |head|;
    assert all[..k] == head && all[k..] == gs && ([f] + fs)[1..] == fs;
  }

  lemma {:induction false} RereadsSelf(fs: seq<CandidateFile>)
    ensures Rereads(fs, fs)
  {
    hide FileBlock, Blocks;
    if fs != [] {
      RereadsSelf(fs[1..]);
      LoneBlock(fs[0]);
      BlocksStart([]);
      assert FileBlock(fs[0]) + "" == FileBlock(fs[0]);
      RereadsStep(fs[1..], fs[1..], [fs[0]], fs[0]);
      assert [fs[0]] + fs[1..] == fs;
    }
  }

  /** The bundle with file `j` taken for two. */
  function SplitAt(fs: seq<CandidateFile>, j: nat, i: nat, e: nat): seq<CandidateFile>
    requires j < |fs| && i + 6 <= e < |fs[j].content|
  {
    fs[..j] + Halves(fs[j], i, e) + fs[j + 1..]
  }

  lemma {:induction false} SplitRereads(fs: seq<CandidateFile>, j: nat, i: nat, e: nat)
    requires AllReadable(fs) && j < |fs| && Splits(fs[j].content, i, e)
    ensures Rereads(SplitAt(fs, j, i, e), fs) && AllReadable(SplitAt(fs, j, i, e))
    decreases j
  {
    hide FileBlock, Blocks, Readable, HeaderLine, Normalize, Rereads;
    var f, rest := fs[0], fs[1..];
    assert fs == [f] + rest;
    HalvesRead(fs[j], i, e);
    if j == 0 {
      RereadsSelf(rest);
      RereadsStep(rest, rest, Halves(f, i, e), f);
      assert SplitAt(fs, 0, i, e) == Halves(f, i, e) + rest;
    } else {
      SplitRereads(rest, j - 1, i, e);
      LoneBlock(f);
      BlocksStart([]);
      assert FileBlock(f) + "" == FileBlock(f);
      RereadsStep(SplitAt(rest, j - 1, i, e), rest, [f], f);
      assert SplitAt(fs, j, i, e) == [f] + SplitAt(rest, j - 1, i, e);
    }
  }

  lemma {:induction false} BlocksJoin(fs: seq<CandidateFile>, gs: seq<CandidateFile>)
    ensures Blocks(fs + gs) == Blocks(fs) + Blocks(gs)
  {
    hide FileBlock;
    if fs == [] {
      assert fs + gs == gs && "" + Blocks(gs) == Blocks(gs);
    } else {
      var rest := fs[1..];
      BlocksJoin(rest, gs);
      BlocksFront(fs);
      BlocksFront(fs + gs);
      assert (fs + gs)[1..] == rest + gs;
      Assoc(FileBlock(fs[0]), Blocks(rest), Blocks(gs));
    }
  }

  /** Reading on in the same blocks is reading the same text. */
  lemma {:induction false} RereadsText(gs: seq<CandidateFile>, fs: seq<CandidateFile>)
    requires Rereads(gs, fs)
    ensures Blocks(gs) == Blocks(fs) && |gs| >= |fs|
    decreases |fs|
  {
    hide FileBlock, Blocks;
    if fs != [] {
      var k :| 0 < k <= |gs| && Blocks(gs[..k]) == FileBlock(fs[0]) && Rereads(gs[k..], fs[1..]);
      RereadsText(gs[k..], fs[1..]);
      BlocksJoin(gs[..k], gs[k..]);
      assert gs == gs[..k] + gs[k..];
      BlocksFront(fs);
    }
  }

  /** A header line inside a content reads as the start of another file: in every bundle of several
      files, for every file and every such line. */
  lemma OutputMisreads(fs: seq<CandidateFile>, j: nat, i: nat, e: nat)
    requires |fs| > 1 && AllReadable(fs) && j < |fs| && Splits(fs[j].content, i, e)
    ensures var gs := SplitAt(fs, j, i, e);
            && Output(gs) == Output(fs) && |gs| == |fs| + 1 && AllReadable(gs) && Rereads(gs, fs)
  {
    hide Blocks, Readable, Rereads;
    SplitRereads(fs, j, i, e);
    RereadsText(SplitAt(fs, j, i, e), fs);
  }

  /** Two files or more in one block are a header line inside its content. */
  lemma TwoInOne(hs: seq<CandidateFile>, f: CandidateFile)
    requires AllReadable(hs) && Readable(f) && |hs| > 1 && Blocks(hs) == FileBlock(f)
    ensures HasSplit(f.content)
  {
    hide Blocks, FileBlock, Normalize, EndsLine, HasSplit;
    var g, rest := hs[1], Blocks(hs[2..]);
    assert hs[0] in hs && g in hs;
    BlocksFront(hs);
    BlocksFront(hs[1..]);
    assert hs[1..][1..] == hs[2..] && hs[1..][0] == g;
    NothingMore(f.content, FileBlock(f));
    SameHead(hs[0], f, Blocks(hs[1..]), "");
    BlockShape(g, rest);
    SomethingBelow(g.content, rest);
    NormalizeTwice(g.path);
    HeaderInside(hs[0].content, Normalize(g.path), g.content + rest, f.content);
  }

  lemma SomethingBelow(c: string, rest: string)
    requires EndsLine(c)
    ensures c + rest != ""
  {
  }

  lemma HeaderInside(d: string, path: string, below: string, c: string)
    requires EndsLine(d) && '\n' !in path && Normalize(path) == path && below != ""
    requires c == d + (FILE_HEADER + (path + ("\n" + below)))
    ensures HasSplit(c)
  {
    hide Normalize;
    var i, e := |d|, |d| + 6 + |path|;
    assert c[i..i + 6] == FILE_HEADER && c[i + 6..e] == path && c[e] == '\n' && c[i - 1] == '\n';
    assert Splits(c, i, e);
  }

  /** A block without such a line is one file. */
  lemma OneInOne(hs: seq<CandidateFile>, f: CandidateFile)
    requires AllReadable(hs) && Readable(f) && hs != [] && Blocks(hs) == FileBlock(f) && !HasSplit(f.content)
    ensures |hs| == 1 && Normalized(hs[0]) == Normalized(f)
  {
    hide Blocks, FileBlock, Normalize, EndsLine, HasSplit;
    if |hs| > 1 { TwoInOne(hs, f); }
    var h := hs[0];
    assert hs == [h] && h in hs;
    LoneBlock(h);
    BlocksStart([]);
    NothingMore(f.content, FileBlock(f));
    NothingMore(h.content, FileBlock(h));
    SameHead(h, f, "", "");
  }

  lemma {:induction false} UnsplitIsFinest(gs: seq<CandidateFile>, fs: seq<CandidateFile>)
    requires AllReadable(gs) && AllReadable(fs) && Rereads(gs, fs)
    requires forall f :: f in fs ==> !HasSplit(f.content)
    ensures NormalizedFiles(gs) == NormalizedFiles(fs)
    decreases |fs|
  {
    hide FileBlock, Blocks, Readable, HasSplit;
    if fs != [] {
      var k :| 0 < k <= |gs| && Blocks(gs[..k]) == FileBlock(fs[0]) && Rereads(gs[k..], fs[1..]);
      OneInOne(gs[..k], fs[0]);
      UnsplitIsFinest(gs[1..], fs[1..]);
      NormalizedFront(gs);
      NormalizedFront(fs);
    }
  }

  /** A bundle of several files that end their lines is the finest reading of its own text exactly if no content has
      a header line inside. */
  lemma OutputFinest(fs: seq<CandidateFile>)
    requires |fs| > 1 && AllReadable(fs)
    ensures (exists gs :: AllReadable(gs) && Rereads(gs, fs) && Output(gs) == Output(fs)
                          && NormalizedFiles(gs) != NormalizedFiles(fs))
       <==> exists f :: f in fs && HasSplit(f.content)
  {
    hide Blocks, Readable, Rereads;
    if f :| f in fs && HasSplit(f.content) {
      var j :| 0 <= j < |fs| && fs[j] == f;
      var i, e :| Splits(f.content, i, e);
      OutputMisreads(fs, j, i, e);
    } else {
      forall gs | AllReadable(gs) && Rereads(gs, fs) ensures NormalizedFiles(gs) == NormalizedFiles(fs) {
        UnsplitIsFinest(gs, fs);
      }
    }
  }
}
