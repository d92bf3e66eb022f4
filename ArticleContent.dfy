/** The blog article renderer (src/pages/ArticlePage.jsx, `renderContent`):
    the article text is cut into chunks at every "\n\n", and each chunk
    becomes one block -- a heading, a bullet list, a numbered list or a
    paragraph with `**bold**` spans turned into <strong> elements. */
module ArticleContent {
  import opened Wrappers
  import opened Text
  import opened Seqs

  /** One rendered block; `html` is the paragraph's inner HTML. */
  datatype Block =
    | Heading(level: nat, text: string)
    | Bullets(items: seq<string>)
    | Numbered(items: seq<string>)
    | Paragraph(html: string)

  // ---------------------------------------------------------------------
  // Line tests

  /** `l.startsWith('- ')`. */
  predicate IsBulletLine(l: string)
  {
    |l| >= 2 && l[0] == '-' && l[1] == ' '
  }

  /** `/^\d+\./`: one or more digits, then a dot. The digit run is greedy,
      and giving back digits would put a digit, not a dot, after it, so the
      longest run decides. */
  predicate IsNumberedLine(l: string)
  {
    var n := |LeadingDigits(l)|;
    n >= 1 && n < |l| && l[n] == '.'
  }

  /** A numbered line with its leading digits, its dot and the whitespace
      after them removed (the `^\d+\.\s*` replacement). */
  function NumberedItem(l: string): string
    requires IsNumberedLine(l)
  {
    TrimStart(l[|LeadingDigits(l)| + 1..], IsJsSpace)
  }

  // ---------------------------------------------------------------------
  // Bold spans

  /** Some line terminator occurs in `t` before position `j`. */
  predicate TerminatorBefore(t: string, j: int)
  {
    exists k :: 0 <= k < j && k < |t| && IsJsLineTerminator(t[k])
  }

  /** Where the lazy `(.*?)` group of the bold pattern ends, scanning `t`
      from its start: the first "**" with no line terminator before it
      (the regular-expression `.` matches none). */
  function FindClose(t: string): (r: Option<nat>)
    ensures r.Some? ==> r.value + 2 <= |t| && t[r.value] == '*' && t[r.value + 1] == '*'
    ensures r.Some? ==> forall k :: 0 <= k < r.value ==> !IsJsLineTerminator(t[k])
    ensures r.Some? ==> forall k :: 0 <= k < r.value ==> !(t[k] == '*' && t[k + 1] == '*')
    ensures r.None? ==> forall j :: 0 <= j && j + 2 <= |t| && t[j] == '*' && t[j + 1] == '*' ==>
      TerminatorBefore(t, j)
  {
    if |t| < 2 then None
    else if t[0] == '*' && t[1] == '*' then Some(0)
    else if IsJsLineTerminator(t[0]) then None
    else
      var rest := FindClose(t[1..]);
      if rest.Some? then Some(rest.value + 1) else None
  }

  /** The global replacement of "**", a lazy single-line group and "**" by
      "<strong>", the group and "</strong>": matches are tried left to
      right; after a match the scan resumes behind it, after a failed
      attempt one character later. */
  function FormatBold(s: string): (r: string)
    ensures |r| >= |s|
    decreases |s|
  {
    if s == [] then ""
    else if |s| >= 2 && s[0] == '*' && s[1] == '*' && FindClose(s[2..]).Some? then
      var j := FindClose(s[2..]).value;
      "<strong>" + s[2..2 + j] + "</strong>" + FormatBold(s[2 + j + 2..])
    else [s[0]] + FormatBold(s[1..])
  }

  /** Text with no "**" is unchanged. */
  lemma {:induction false} FormatBoldWithoutMarkers(s: string)
    requires forall i :: 0 <= i < |s| - 1 ==> !(s[i] == '*' && s[i + 1] == '*')
    ensures FormatBold(s) == s
    decreases |s|
  {
    if s != [] {
      forall i | 0 <= i < |s[1..]| - 1
        ensures !(s[1..][i] == '*' && s[1..][i + 1] == '*')
      {
        assert s[1..][i] == s[i + 1] && s[1..][i + 1] == s[i + 2];
      }
      FormatBoldWithoutMarkers(s[1..]);
      assert s == [s[0]] + s[1..];
    }
  }

  /** Text with no match of the bold pattern is unchanged: every "**" in
      it lacks a closing "**" on the same line. */
  lemma {:induction false} FormatBoldWithoutPairs(s: string)
    requires forall j :: 0 <= j && j + 2 <= |s| && s[j] == '*' && s[j + 1] == '*' ==> FindClose(s[j + 2..]).None?
    ensures FormatBold(s) == s
    decreases |s|
  {
    if s != [] {
      if |s| >= 2 && s[0] == '*' && s[1] == '*' {
        assert FindClose(s[2..]).None?;
      }
      forall j | 0 <= j && j + 2 <= |s[1..]| && s[1..][j] == '*' && s[1..][j + 1] == '*'
        ensures FindClose(s[1..][j + 2..]).None?
      {
        assert s[1..][j + 2..] == s[j + 3..];
        assert s[j + 1] == '*' && s[j + 2] == '*';
      }
      FormatBoldWithoutPairs(s[1..]);
      assert s == [s[0]] + s[1..];
    }
  }

  /** An unmatched marker stays as it is. */
  lemma UnmatchedMarkerKept()
    ensures FormatBold("a ** b") == "a ** b"
  {
    var s := "a ** b";
    assert s[0] == 'a' && s[1] == ' ' && s[2] == '*' && s[3] == '*' && s[4] == ' ' && s[5] == 'b';
    assert s[4..] == " b";
    assert FindClose(" b") == None by {
      assert " b"[1..] == "b";
    }
    FormatBoldWithoutPairs(s);
  }

  /** A marker whose closing "**" is on the next line stays as it is. */
  lemma MarkerAcrossLinesKept()
    ensures FormatBold("**a\n**") == "**a\n**"
  {
    var t := "**a\n**";
    assert t[0] == '*' && t[1] == '*' && t[2] == 'a' && t[3] == '\n' && t[4] == '*' && t[5] == '*';
    assert t[2..] == "a\n**" && "a\n**"[1..] == "\n**";
    assert IsJsLineTerminator('\n');
    assert FindClose("\n**") == None;
    assert t[6..] == [];
    FormatBoldWithoutPairs(t);
  }

  /** `x` holds no "**", and none forms with a star that follows it. */
  predicate NoMarker(x: string)
  {
    && (forall i :: 0 <= i < |x| - 1 ==> !(x[i] == '*' && x[i + 1] == '*'))
    && (x != [] ==> x[|x| - 1] != '*')
  }

  /** What remains after the first character of a marker-free text is
      marker-free too. */
  lemma NoMarkerTail(x: string)
    requires x != [] && NoMarker(x)
    ensures NoMarker(x[1..])
    ensures !(x[0] == '*' && (x + "*")[1] == '*')
  {
    forall i | 0 <= i < |x[1..]| - 1
      ensures !(x[1..][i] == '*' && x[1..][i + 1] == '*')
    {
      assert x[1..][i] == x[i + 1] && x[1..][i + 1] == x[i + 2];
    }
  }

  /** The closing "**" right after a single-line span without "**". */
  lemma {:induction false} FindCloseAfterSpan(x: string, q: string)
    requires NoMarker(x)
    requires forall k :: 0 <= k < |x| ==> !IsJsLineTerminator(x[k])
    ensures FindClose(x + "**" + q) == Some(|x|)
    decreases |x|
  {
    var t := x + "**" + q;
    if x != [] {
      NoMarkerTail(x);
      assert t[0] == x[0] && t[1] == (x + "*")[1];
      assert t[1..] == x[1..] + "**" + q;
      FindCloseAfterSpan(x[1..], q);
    }
  }

  /** A single-line span without "**" between "**" pairs becomes a
      <strong> element; text before it without "**" is kept as it is. */
  lemma {:induction false} FormatBoldSpan(p: string, x: string, q: string)
    requires NoMarker(p) && NoMarker(x)
    requires forall k :: 0 <= k < |x| ==> !IsJsLineTerminator(x[k])
    ensures FormatBold(p + ("**" + x + "**" + q)) == p + ("<strong>" + x + "</strong>" + FormatBold(q))
    decreases |p|
  {
    var t := "**" + x + "**" + q;
    var w := "<strong>" + x + "</strong>" + FormatBold(q);
    if p == [] {
      FormatBoldSpanAtStart(x, q);
      assert [] + t == t && [] + w == w;
    } else {
      NoMarkerTail(p);
      FormatBoldSpan(p[1..], x, q);
      assert p == [p[0]] + p[1..];
      AppendAssociative([p[0]], p[1..], t);
      AppendAssociative([p[0]], p[1..], w);
      var s := [p[0]] + (p[1..] + t);
      assert s[0] == p[0] && s[1] == (p + "*")[1];
      assert s[1..] == p[1..] + t;
    }
  }

  /** A star inside the span is kept inside the element:
      "**a*b**" gives "<strong>a*b</strong>". */
  lemma StarInsideSpan(q: string)
    ensures FormatBold("**" + "a*b" + "**" + q) == "<strong>" + "a*b" + "</strong>" + FormatBold(q)
  {
    var x := "a*b";
    assert NoMarker(x) by {
      assert x[0] == 'a' && x[1] == '*' && x[2] == 'b';
    }
    FormatBoldSpanAtStart(x, q);
  }

  /** The bold span at the very start of the text. */
  lemma FormatBoldSpanAtStart(x: string, q: string)
    requires NoMarker(x)
    requires forall k :: 0 <= k < |x| ==> !IsJsLineTerminator(x[k])
    ensures FormatBold("**" + x + "**" + q) == "<strong>" + x + "</strong>" + FormatBold(q)
  {
    var s := "**" + x + "**" + q;
    assert s[2..] == x + "**" + q;
    FindCloseAfterSpan(x, q);
    assert s[2..2 + |x|] == x;
    assert s[2 + |x| + 2..] == q;
  }

  // ---------------------------------------------------------------------
  // Blocks

  function BulletItems(chunk: string): seq<string>
  {
    var lines := Filter(Split(chunk, '\n'), IsBulletLine);
    seq(|lines|, k requires 0 <= k < |lines| => lines[k][2..])
  }

  function NumberedItems(chunk: string): seq<string>
  {
    var lines := Filter(Split(chunk, '\n'), IsNumberedLine);
    seq(|lines|, k requires 0 <= k < |lines| => NumberedItem(lines[k]))
  }

  /** The block a chunk becomes; the tests run in the source's order. */
  function Classify(chunk: string): (b: Block)
    ensures b.Heading? ==> 1 <= b.level <= 3
    ensures b.Bullets? || b.Numbered? ==> |b.items| >= 1
  {
    if StartsWith(chunk, "# ") then Heading(1, chunk[2..])
    else if StartsWith(chunk, "## ") then Heading(2, chunk[3..])
    else if StartsWith(chunk, "### ") then Heading(3, chunk[4..])
    else if StartsWith(chunk, "- ") then
      BulletFirstLine(chunk);
      Bullets(BulletItems(chunk))
    else if IsNumberedLine(chunk) then
      NumberedFirstLine(chunk);
      Numbered(NumberedItems(chunk))
    else Paragraph(FormatBold(chunk))
  }

  /** The "\n\n"-separated chunks of the article. */
  function Chunks(content: string): seq<string>
  {
    SplitOn(content, "\n\n")
  }

  /** `renderContent`: one block per chunk, in order. */
  function RenderContent(content: string): (blocks: seq<Block>)
    ensures |blocks| == |Chunks(content)| >= 1
    ensures forall i :: 0 <= i < |blocks| ==> blocks[i] == Classify(Chunks(content)[i])
  {
    var chunks := Chunks(content);
    seq(|chunks|, i requires 0 <= i < |chunks| => Classify(chunks[i]))
  }

  /** The chunks are the whole article: joined back with "\n\n" they give
      the text, so no part of it is lost or repeated. */
  lemma ChunksCoverContent(content: string)
    ensures Join(Chunks(content), "\n\n") == content
  {
    JoinSplitOn(content, "\n\n");
  }

  /** Text without a blank line is one chunk. */
  lemma SingleChunk(content: string)
    requires !Occurs(content, "\n\n")
    ensures RenderContent(content) == [Classify(content)]
  {
    SplitOnAbsent(content, "\n\n");
  }

  /** Heading levels by prefix: level 1 iff "# ", level 2 iff "## ",
      level 3 iff "### ", with exactly the marker and its space removed. */
  lemma HeadingLevels(chunk: string)
    ensures Classify(chunk).Heading? <==>
      StartsWith(chunk, "# ") || StartsWith(chunk, "## ") || StartsWith(chunk, "### ")
    ensures (Classify(chunk).Heading? && Classify(chunk).level == 1) <==> StartsWith(chunk, "# ")
    ensures (Classify(chunk).Heading? && Classify(chunk).level == 2) <==> StartsWith(chunk, "## ")
    ensures (Classify(chunk).Heading? && Classify(chunk).level == 3) <==> StartsWith(chunk, "### ")
    ensures Classify(chunk).Heading? ==>
      1 <= Classify(chunk).level <= 3 && Classify(chunk).text == chunk[Classify(chunk).level + 1..]
  {
    if StartsWith(chunk, "## ") || StartsWith(chunk, "### ") {
      assert chunk[1] == '#';
      assert !StartsWith(chunk, "# ");
    }
    if StartsWith(chunk, "### ") {
      assert chunk[2] == '#';
      assert !StartsWith(chunk, "## ");
    }
  }

  /** A chunk is a bullet list iff it starts with "- "; the list holds, in
      order, the lines that start with "- " without that marker, at least
      the first line; the other lines are dropped. */
  lemma BulletListItems(chunk: string)
    ensures Classify(chunk).Bullets? <==> StartsWith(chunk, "- ")
    ensures Classify(chunk).Bullets? ==>
      var lines := Split(chunk, '\n');
      var items := Classify(chunk).items;
      && |items| == Count(lines, IsBulletLine) >= 1
      && (forall k :: 0 <= k < |items| ==> exists i :: 0 <= i < |lines| && IsBulletLine(lines[i]) && items[k] == lines[i][2..])
      && (forall i :: 0 <= i < |lines| && IsBulletLine(lines[i]) ==> lines[i][2..] in items)
    ensures Classify(chunk).Bullets? ==>
      var lines := Split(chunk, '\n');
      var kept := Filter(lines, IsBulletLine);
      var items := Classify(chunk).items;
      && IsSubsequence(kept, lines)
      && |items| == |kept|
      && (forall k :: 0 <= k < |kept| ==> items[k] == kept[k][2..])
  {
    BulletItemsInOrder(chunk);
    BulletItemsMembership(chunk);
    ClassifyBullets(chunk);
    if StartsWith(chunk, "- ") {
      BulletFirstLine(chunk);
      var lines := Split(chunk, '\n');
      var items := Classify(chunk).items;
      assert items == BulletItems(chunk);
      BulletItemsFromLines(chunk);
    }
  }

  /** Whether `item` is some bullet line of `lines` without its marker. */
  predicate FromBulletLine(item: string, lines: seq<string>)
  {
    exists i :: 0 <= i < |lines| && IsBulletLine(lines[i]) && item == lines[i][2..]
  }

  /** Every item of a bullet list comes from some bullet line. */
  lemma BulletItemsFromLines(chunk: string)
    requires StartsWith(chunk, "- ")
    ensures Classify(chunk).Bullets?
    ensures forall k :: 0 <= k < |Classify(chunk).items| ==> FromBulletLine(Classify(chunk).items[k], Split(chunk, '\n'))
  {
    ClassifyBullets(chunk);
    forall k | 0 <= k < |Classify(chunk).items|
      ensures FromBulletLine(Classify(chunk).items[k], Split(chunk, '\n'))
    {
      var i := BulletSource(chunk, k);
      assert IsBulletLine(Split(chunk, '\n')[i]);
    }
  }

  /** The line bullet item k comes from. */
  lemma BulletSource(chunk: string, k: int) returns (i: int)
    requires 0 <= k < |BulletItems(chunk)|
    ensures 0 <= i < |Split(chunk, '\n')| && IsBulletLine(Split(chunk, '\n')[i])
    ensures BulletItems(chunk)[k] == Split(chunk, '\n')[i][2..]
  {
    var lines := Split(chunk, '\n');
    var kept := Filter(lines, IsBulletLine);
    assert kept[k] in lines && IsBulletLine(kept[k]);
    i :| 0 <= i < |lines| && lines[i] == kept[k];
  }

  /** Only a chunk starting with "- " is a bullet list, and its items are
      the bullet items. */
  lemma ClassifyBullets(chunk: string)
    ensures Classify(chunk).Bullets? <==> StartsWith(chunk, "- ")
    ensures StartsWith(chunk, "- ") ==> Classify(chunk) == Bullets(BulletItems(chunk))
  {
    if StartsWith(chunk, "- ") {
      assert chunk[0] == '-';
    }
  }

  /** The first line of a bullet chunk is a bullet line. */
  lemma BulletFirstLine(chunk: string)
    requires StartsWith(chunk, "- ")
    ensures |BulletItems(chunk)| >= 1
  {
    var lines := Split(chunk, '\n');
    FirstPartOfSplit(chunk, '\n');
    assert IsBulletLine(lines[0]);
    assert lines[0] in Filter(lines, IsBulletLine);
  }

  /** Every "- " line gives an item, and there are as many items as such
      lines. */
  lemma BulletItemsMembership(chunk: string)
    ensures |BulletItems(chunk)| == Count(Split(chunk, '\n'), IsBulletLine)
    ensures forall i :: 0 <= i < |Split(chunk, '\n')| && IsBulletLine(Split(chunk, '\n')[i]) ==> Split(chunk, '\n')[i][2..] in BulletItems(chunk)
  {
    var lines := Split(chunk, '\n');
    var kept := Filter(lines, IsBulletLine);
    CountIsFilterLength(lines, IsBulletLine);
    var items := BulletItems(chunk);
    forall i | 0 <= i < |lines| && IsBulletLine(lines[i])
      ensures lines[i][2..] in items
    {
      assert lines[i] in kept;
      var k :| 0 <= k < |kept| && kept[k] == lines[i];
      assert items[k] == lines[i][2..];
    }
  }

  /** A chunk is a numbered list iff it needs no earlier test and starts
      with digits and a dot; the list holds, in order, the numbered lines,
      at least the first line, without their number, dot and following
      spaces. */
  lemma NumberedListItems(chunk: string)
    ensures Classify(chunk).Numbered? <==> IsNumberedLine(chunk)
    ensures Classify(chunk).Numbered? ==>
      var lines := Split(chunk, '\n');
      var items := Classify(chunk).items;
      && |items| == Count(lines, IsNumberedLine) >= 1
      && (forall i :: 0 <= i < |lines| && IsNumberedLine(lines[i]) ==> NumberedItem(lines[i]) in items)
    ensures Classify(chunk).Numbered? ==>
      var lines := Split(chunk, '\n');
      var kept := Filter(lines, IsNumberedLine);
      var items := Classify(chunk).items;
      && IsSubsequence(kept, lines)
      && |items| == |kept|
      && (forall k :: 0 <= k < |kept| ==> IsNumberedLine(kept[k]) && items[k] == NumberedItem(kept[k]))
  {
    NumberedItemsInOrder(chunk);
    NumberedItemsMembership(chunk);
    ClassifyNumbered(chunk);
    if IsNumberedLine(chunk) {
      NumberedFirstLine(chunk);
    }
  }

  /** Exactly a chunk starting with a numbered line is a numbered list, and
      its items are the numbered items. */
  lemma ClassifyNumbered(chunk: string)
    ensures Classify(chunk).Numbered? <==> IsNumberedLine(chunk)
    ensures IsNumberedLine(chunk) ==> Classify(chunk) == Numbered(NumberedItems(chunk))
  {
    if IsNumberedLine(chunk) {
      assert IsDigit(chunk[0]);
      assert !StartsWith(chunk, "# ") && !StartsWith(chunk, "## ") && !StartsWith(chunk, "### ")
        && !StartsWith(chunk, "- ") by {
        assert chunk[0] != '#' && chunk[0] != '-';
      }
    }
  }

  /** The first line of a numbered chunk is a numbered line. */
  lemma NumberedFirstLine(chunk: string)
    requires IsNumberedLine(chunk)
    ensures |NumberedItems(chunk)| >= 1
  {
    var lines := Split(chunk, '\n');
    FirstPartOfSplit(chunk, '\n');
    NumberedPrefixOfLine(chunk, lines[0]);
    assert lines[0] in Filter(lines, IsNumberedLine);
  }

  /** Every numbered line gives an item, and there are as many items as
      numbered lines. */
  lemma NumberedItemsMembership(chunk: string)
    ensures var lines := Split(chunk, '\n');
      var items := NumberedItems(chunk);
      && |items| == Count(lines, IsNumberedLine)
      && (forall i :: 0 <= i < |lines| && IsNumberedLine(lines[i]) ==> NumberedItem(lines[i]) in items)
  {
    var lines := Split(chunk, '\n');
    var kept := Filter(lines, IsNumberedLine);
    CountIsFilterLength(lines, IsNumberedLine);
    var items := NumberedItems(chunk);
    forall i | 0 <= i < |lines| && IsNumberedLine(lines[i])
      ensures NumberedItem(lines[i]) in items
    {
      assert lines[i] in kept;
      var k :| 0 <= k < |kept| && kept[k] == lines[i];
      assert items[k] == NumberedItem(lines[i]);
    }
  }

  /** Item k of a bullet list is the k-th "- " line of the chunk without
      its marker. */
  lemma BulletItemsInOrder(chunk: string)
    ensures var lines := Split(chunk, '\n');
      var kept := Filter(lines, IsBulletLine);
      var items := BulletItems(chunk);
      && IsSubsequence(kept, lines)
      && |items| == |kept|
      && (forall k :: 0 <= k < |kept| ==> items[k] == kept[k][2..])
  {
    FilterIsSubsequence(Split(chunk, '\n'), IsBulletLine);
  }

  /** Item k of a numbered list is the k-th numbered line of the chunk
      without its number. */
  lemma NumberedItemsInOrder(chunk: string)
    ensures var lines := Split(chunk, '\n');
      var kept := Filter(lines, IsNumberedLine);
      var items := NumberedItems(chunk);
      && IsSubsequence(kept, lines)
      && |items| == |kept|
      && (forall k :: 0 <= k < |kept| ==> IsNumberedLine(kept[k]) && items[k] == NumberedItem(kept[k]))
  {
    var kept := Filter(Split(chunk, '\n'), IsNumberedLine);
    FilterIsSubsequence(Split(chunk, '\n'), IsNumberedLine);
    forall k | 0 <= k < |kept|
      ensures IsNumberedLine(kept[k])
    {
      assert kept[k] in kept;
    }
  }

  /** A paragraph is everything else, with its bold spans formatted. */
  lemma ParagraphOtherwise(chunk: string)
    ensures Classify(chunk).Paragraph? <==>
      !StartsWith(chunk, "# ") && !StartsWith(chunk, "## ") && !StartsWith(chunk, "### ")
      && !StartsWith(chunk, "- ") && !IsNumberedLine(chunk)
    ensures Classify(chunk).Paragraph? ==> Classify(chunk).html == FormatBold(chunk)
  {
  }

  /** A numbered prefix of the chunk survives into a first line that is at
      least as long as the prefix and its dot. */
  lemma NumberedPrefixOfLine(chunk: string, first: string)
    requires IsNumberedLine(chunk)
    requires StartsWith(chunk, first)
    requires |first| < |chunk| ==> chunk[|first|] == '\n'
    ensures IsNumberedLine(first)
  {
    var n := |LeadingDigits(chunk)|;
    if |first| <= n {
      assert false;
    }
    LeadingDigitsOfPrefix(chunk, first);
  }

  /** A prefix that reaches past the leading digits has the same leading
      digits. */
  lemma LeadingDigitsOfPrefix(s: string, t: string)
    requires StartsWith(s, t) && |LeadingDigits(s)| < |t|
    ensures LeadingDigits(t) == LeadingDigits(s)
  {
    var d := LeadingDigits(s);
    assert t == d + t[|d|..];
    assert t[|d|] == s[|d|];
    LeadingDigitsOf(d, t[|d|..]);
  }
}
