/** The feats file: its lines (each keeping its line feed), grouped into
    blocks that each end at a blank line, and every block parsed into a
    feat. A block that is not followed by a blank line is never parsed. */
module FeatsFile {
  import opened Results
  import opened Text
  import opened Feats
  import opened FeatParser

  /** The lines of a file read in binary mode: each piece runs up to and
      including a line feed, and the last piece may lack one. */
  function FileLines(content: string): (lines: seq<string>)
    ensures forall i :: 0 <= i < |lines| ==> lines[i] != []
    ensures forall i :: 0 <= i < |lines| - 1 ==> lines[i][|lines[i]| - 1] == '\n'
    ensures forall i :: 0 <= i < |lines| ==> '\n' !in lines[i][..|lines[i]| - 1]
    decreases |content|
  {
    if content == [] then []
    else
      var i := IndexOf(content, '\n');
      if i == |content| then [content]
      else
        var line := content[..i + 1];
        assert line[..|line| - 1] == content[..i];
        [line] + FileLines(content[i + 1..])
  }

  /** All the pieces, concatenated. */
  function Concat(lines: seq<string>): string {
    if lines == [] then [] else lines[0] + Concat(lines[1..])
  }

  /** The pieces concatenate back to the file. */
  lemma {:induction false} FileLinesConcat(content: string)
    ensures Concat(FileLines(content)) == content
    decreases |content|
  {
    if content != [] {
      var i := IndexOf(content, '\n');
      if i == |content| {
        assert content + [] == content;
      } else {
        FileLinesConcat(content[i + 1..]);
        assert content == content[..i + 1] + content[i + 1..];
      }
    }
  }

  /** Python's `line.isspace()`: not empty and whitespace throughout. */
  predicate IsBlank(line: string) {
    line != [] && AllWhitespace(line)
  }

  /** The blocks closed so far by blank lines, read from the back: a blank
      line closes the text gathered since the previous one. */
  function Blocks(lines: seq<string>): seq<string>
    decreases |lines|
  {
    if lines == [] then []
    else if IsBlank(lines[|lines| - 1]) then Blocks(lines[..|lines| - 1]) + [Pending(lines[..|lines| - 1])]
    else Blocks(lines[..|lines| - 1])
  }

  /** The text gathered since the last blank line. */
  function Pending(lines: seq<string>): string
    decreases |lines|
  {
    if lines == [] then []
    else if IsBlank(lines[|lines| - 1]) then []
    else Pending(lines[..|lines| - 1]) + lines[|lines| - 1]
  }

  /** The number of blank lines. */
  function BlankCount(lines: seq<string>): nat
    decreases |lines|
  {
    if lines == [] then 0
    else BlankCount(lines[..|lines| - 1]) + (if IsBlank(lines[|lines| - 1]) then 1 else 0)
  }

  /** One block per blank line: consecutive blank lines close empty blocks. */
  lemma {:induction false} BlocksCount(lines: seq<string>)
    ensures |Blocks(lines)| == BlankCount(lines)
    decreases |lines|
  {
    if lines != [] {
      BlocksCount(lines[..|lines| - 1]);
    }
  }

  /** Lines after the last blank line add no block: a final block without
      a blank line after it is dropped. */
  lemma {:induction false} TrailingLinesDropped(lines: seq<string>, tail: seq<string>)
    requires forall i :: 0 <= i < |tail| ==> !IsBlank(tail[i])
    ensures Blocks(lines + tail) == Blocks(lines)
    ensures Pending(lines + tail) == Pending(lines) + Concat(tail)
    decreases |tail|
  {
    if tail == [] {
      assert lines + tail == lines;
    } else {
      var init := tail[..|tail| - 1];
      var all := lines + tail;
      assert all[..|all| - 1] == lines + init;
      assert all[|all| - 1] == tail[|tail| - 1];
      TrailingLinesDropped(lines, init);
      ConcatSnoc(init, tail[|tail| - 1]);
      assert tail == init + [tail[|tail| - 1]];
    }
  }

  /** Concatenating one more piece appends it. */
  lemma {:induction false} ConcatSnoc(lines: seq<string>, l: string)
    ensures Concat(lines + [l]) == Concat(lines) + l
    decreases |lines|
  {
    if lines == [] {
      assert lines + [l] == [l];
      assert Concat([l]) == l + Concat([]);
    } else {
      assert (lines + [l])[1..] == lines[1..] + [l];
      ConcatSnoc(lines[1..], l);
    }
  }

  /** A blank line closes the gathered text as a block of its own. */
  lemma BlankClosesBlock(lines: seq<string>, body: seq<string>, blank: string)
    requires forall i :: 0 <= i < |body| ==> !IsBlank(body[i])
    requires IsBlank(blank)
    ensures Blocks(lines + body + [blank]) == Blocks(lines) + [Pending(lines) + Concat(body)]
  {
    var all := lines + body + [blank];
    assert all[..|all| - 1] == lines + body;
    TrailingLinesDropped(lines, body);
  }

  /** The loop of `main` over the file's lines: gather lines until a blank
      one, then hand the gathered text on and start again. */
  method GroupBlocks(lines: seq<string>) returns (blocks: seq<string>)
    ensures blocks == Blocks(lines)
  {
    blocks := [];
    var pending := "";
    var k := 0;
    while k < |lines|
      invariant 0 <= k <= |lines|
      invariant blocks == Blocks(lines[..k])
      invariant pending == Pending(lines[..k])
    {
      var line := lines[k];
      assert lines[..k + 1][..k] == lines[..k];
      if line != [] && AllWhitespace(line) {
        blocks := blocks + [pending];
        pending := "";
      } else {
        pending := pending + line;
      }
      k := k + 1;
    }
    assert lines[..k] == lines;
  }

  /** The outcome of `parse` on each block, in order. */
  function ParseEach(blocks: seq<string>, parse: string -> Result<Feat, ParseError>): (r: seq<Result<Feat, ParseError>>)
    ensures |r| == |blocks|
    ensures forall i :: 0 <= i < |blocks| ==> r[i] == parse(blocks[i])
    decreases |blocks|
  {
    if blocks == [] then []
    else
      var init := blocks[..|blocks| - 1];
      var rest := ParseEach(init, parse);
      var last := parse(blocks[|blocks| - 1]);
      assert forall i :: 0 <= i < |init| ==> (rest + [last])[i] == rest[i] && init[i] == blocks[i];
      rest + [last]
  }

  /** The values of a run of outcomes while they succeed; the first failure
      stops the run with its error. */
  function Collect(rs: seq<Result<Feat, ParseError>>): (r: Result<seq<Feat>, ParseError>)
    ensures r.Ok? <==> forall i :: 0 <= i < |rs| ==> rs[i].Ok?
    ensures r.Ok? ==> |r.value| == |rs| && forall i :: 0 <= i < |rs| ==> Ok(r.value[i]) == rs[i]
    ensures r.Err? ==>
      exists i ::
        && 0 <= i < |rs|
        && rs[i] == Err(r.error)
        && forall j :: 0 <= j < i ==> rs[j].Ok?
    decreases |rs|
  {
    if rs == [] then Ok([])
    else
      var init := rs[..|rs| - 1];
      assert forall i :: 0 <= i < |init| ==> init[i] == rs[i];
      match Collect(init)
      case Err(e) => Err(e)
      case Ok(fs) =>
        match rs[|rs| - 1]
        case Err(e) => Err(e)
        case Ok(f) =>
          assert forall i :: 0 <= i < |fs| ==> (fs + [f])[i] == fs[i];
          Ok(fs + [f])
  }

  /** Why a file yields no list of feats: a block that does not parse, or
      a file without any blank line, where no block is ever parsed and the
      graph loop that follows has no feat to start from (featgraph stops
      there with an unbound-variable error). */
  datatype FileError = NoBlankLine | BadBlock(error: ParseError)

  /** The feats of the blocks of a file, in file order: every block
      parsed; the first block that fails stops the run, and no block at
      all is the error of a file without a blank line. */
  function FeatsOfBlocks(blocks: seq<string>): (r: Result<seq<Feat>, FileError>)
    ensures r == Err(NoBlankLine) <==> blocks == []
    ensures r.Ok? <==> blocks != [] && forall i :: 0 <= i < |blocks| ==> FromText(blocks[i]).Ok?
    ensures r.Ok? ==> |r.value| == |blocks| && forall i :: 0 <= i < |blocks| ==> Ok(r.value[i]) == FromText(blocks[i])
    ensures r.Err? && r.error.BadBlock? ==>
      exists i :: 0 <= i < |blocks| && FromText(blocks[i]) == Err(r.error.error)
                  && forall j :: 0 <= j < i ==> FromText(blocks[j]).Ok?
  {
    if blocks == [] then Err(NoBlankLine)
    else
      match Collect(ParseEach(blocks, FromText))
      case Err(e) => Err(BadBlock(e))
      case Ok(fs) => Ok(fs)
  }

  /** The feats of a whole file. */
  function FeatsOfFile(content: string): Result<seq<Feat>, FileError> {
    FeatsOfBlocks(Blocks(FileLines(content)))
  }

  /** A file gives the no-blank-line error exactly when none of its lines
      is blank. */
  lemma FeatsOfFileBlocks(content: string)
    ensures FeatsOfFile(content) == Err(NoBlankLine) <==> BlankCount(FileLines(content)) == 0
  {
    BlocksCount(FileLines(content));
  }
}
