/** What a drop of tree items on a configuration document inserts
    (src/providers/DocumentDropEditProvider.ts): a reference to the dropped entity inside a
    droppable list property of the same document, or a copy of its section when it comes
    from another document. */
module Drop {
  import opened Js

  /** The host services the provider calls, taken as given: `Uri.parse` (`None` when it
      throws), `isUriEqual`, `getPerspectiveFromUri`, `getNodeFromUri` (the entity's text),
      `getPropertyToDropType` and `getSectionName`. */
  datatype Host = Host(
    parse: string -> Option<string>,
    sameUri: (string, string) -> bool,
    perspectiveOf: string -> string,
    nodeOf: string -> Option<string>,
    dropProperties: string -> seq<string>,
    sectionName: string -> string)

  /** `undefined`, or a drop edit with its insert text. */
  datatype DropResult = NoDrop | DropEdit(insertText: string)

  // ---------------------------------------------------------------------------
  // The uri list

  /** The uris parsed from the lines of a `text/uri-list`, skipping empty lines and lines
      that do not parse, in order. */
  function Parsed(host: Host, lines: seq<string>): (r: seq<string>)
    ensures |r| <= |lines|
  {
    if |lines| == 0 then []
    else
      var u := lines[|lines| - 1];
      Parsed(host, lines[..|lines| - 1]) + (if u != "" && host.parse(u).Some? then [host.parse(u).value] else [])
  }

  /** Every uri kept is the parse of a non-empty line. */
  lemma {:induction false} ParsedFromLines(host: Host, lines: seq<string>, j: nat)
    requires j < |Parsed(host, lines)|
    ensures exists i | 0 <= i < |lines| :: lines[i] != "" && host.parse(lines[i]) == Some(Parsed(host, lines)[j])
  {
    var n := |lines| - 1;
    var before := Parsed(host, lines[..n]);
    if j < |before| {
      ParsedFromLines(host, lines[..n], j);
      var i :| 0 <= i < n && lines[..n][i] != "" && host.parse(lines[..n][i]) == Some(before[j]);
      assert lines[i] == lines[..n][i];
    } else {
      assert lines[n] != "" && host.parse(lines[n]) == Some(Parsed(host, lines)[j]);
    }
  }

  /** The uris keep the lines' order: parsing distributes over concatenation. */
  lemma {:induction false} ParsedAppend(host: Host, a: seq<string>, b: seq<string>)
    ensures Parsed(host, a + b) == Parsed(host, a) + Parsed(host, b)
    decreases |b|
  {
    if |b| == 0 {
      assert a + b == a;
    } else {
      var b' := b[..|b| - 1];
      assert (a + b)[..|a + b| - 1] == a + b';
      assert (a + b)[|a + b| - 1] == b[|b| - 1];
      ParsedAppend(host, a, b');
    }
  }

  /** When every line parses, no non-empty line is lost. */
  lemma {:induction false} ParsedAll(host: Host, lines: seq<string>)
    requires forall i | 0 <= i < |lines| :: lines[i] != "" ==> host.parse(lines[i]).Some?
    ensures |Parsed(host, lines)| == |NonEmpty(lines)|
  {
    if |lines| > 0 {
      ParsedAll(host, lines[..|lines| - 1]);
    }
  }

  function NonEmpty(lines: seq<string>): seq<string>
  {
    if |lines| == 0 then []
    else NonEmpty(lines[..|lines| - 1]) + (if lines[|lines| - 1] != "" then [lines[|lines| - 1]] else [])
  }

  /** The loop collecting the uris. */
  method CollectUris(host: Host, urlList: string) returns (uris: seq<string>)
    ensures uris == Parsed(host, Split(urlList, '\n'))
  {
    var lines := Split(urlList, '\n');
    uris := [];
    var i := 0;
    while i < |lines|
      invariant 0 <= i <= |lines|
      invariant uris == Parsed(host, lines[..i])
    {
      assert lines[..i + 1][..i] == lines[..i];
      var u := lines[i];
      if u != "" {
        var p := host.parse(u);
        if p.Some? {
          uris := uris + [p.value];
        }
      }
      i := i + 1;
    }
    assert lines[..i] == lines;
  }

  // ---------------------------------------------------------------------------
  // A drop in the same document

  /** The text inserted for the section name `section` dropped at `character` of the line `text`,
      when the property the line sets is one of `properties`; `""` when nothing fits. */
  function InsertText(text: string, character: nat, properties: seq<string>, section: string): (r: string)
    ensures r != "" <==> InsertsAt(text, character, properties)
    ensures r != "" ==>
      var c := TrimmedLast(text[..character]).value;
      r == (if c == '"' || c == '\'' then ", " else "") + "\"" + section + "\"" + (if c == ',' then ", " else "")
  {
    var lineProperty := Head(text, '=');
    if Trim(lineProperty) in properties then
      var endPos := LastIndexOf(text, ']');
      var startPos := IndexOfFrom(text, '[', |lineProperty| + 1);
      if character <= endPos && character > startPos then
        var lastChar := TrimmedLast(text[..character]);
        if lastChar == Some('"') || lastChar == Some('\'') || lastChar == Some('[') || lastChar == Some(',') then
          (if lastChar == Some('"') || lastChar == Some('\'') then ", " else "") + "\"" + section + "\""
          + (if lastChar == Some(',') then ", " else "")
        else ""
      else ""
    else ""
  }

  /** The conditions for an insertion: the line sets a droppable property, the cursor is
      after the first `[` that follows the property name and not after the last `]`, and
      the last non-blank character before the cursor opens the list, ends an item or is a
      comma. */
  predicate InsertsAt(text: string, character: nat, properties: seq<string>)
  {
    var lineProperty := Head(text, '=');
    && Trim(lineProperty) in properties
    && IndexOfFrom(text, '[', |lineProperty| + 1) < character <= LastIndexOf(text, ']')
    && TrimmedLast(text[..character]) in {Some('"'), Some('\''), Some('['), Some(',')}
  }

  /** The cursor of an insertion lies inside the line and after the `[` of its list. */
  lemma InsertionInsideList(text: string, character: nat, properties: seq<string>)
    requires InsertsAt(text, character, properties)
    ensures character < |text| && text[LastIndexOf(text, ']')] == ']'
    ensures var start := IndexOfFrom(text, '[', |Head(text, '=')| + 1);
            start == -1 || (start < character && text[start] == '[')
  {
  }

  // ---------------------------------------------------------------------------
  // A drop from another document

  /** The entity's lines, each non-empty one indented by a tab. */
  function Indented(lines: seq<string>): (r: seq<string>)
    ensures |r| == |lines|
    ensures forall i | 0 <= i < |lines| :: r[i] == (if lines[i] == "" then "" else "\t" + lines[i])
  {
    if |lines| == 0 then [] else Indented(lines[..|lines| - 1]) + [if lines[|lines| - 1] == "" then "" else "\t" + lines[|lines| - 1]]
  }

  /** The indentation taken back off. */
  function Unindented(lines: seq<string>): (r: seq<string>)
    ensures |r| == |lines|
    ensures forall i | 0 <= i < |lines| :: r[i] == (if |lines[i]| > 0 && lines[i][0] == '\t' then lines[i][1..] else lines[i])
  {
    seq(|lines|, i requires 0 <= i < |lines| => if |lines[i]| > 0 && lines[i][0] == '\t' then lines[i][1..] else lines[i])
  }

  /** The lines of the inserted block: an empty line, the section header, then the
      entity's lines indented. */
  method BlockLines(perspectiveId: string, node: string) returns (lines: seq<string>)
    ensures lines == ["", "[" + perspectiveId + "]"] + Indented(Split(node, '\n'))
  {
    lines := ["", "[" + perspectiveId + "]"];
    var pieces := Split(node, '\n');
    var i := 0;
    while i < |pieces|
      invariant 0 <= i <= |pieces|
      invariant lines == ["", "[" + perspectiveId + "]"] + Indented(pieces[..i])
    {
      assert pieces[..i + 1][..i] == pieces[..i];
      var l := pieces[i];
      lines := lines + [if l == "" then "" else "\t" + l];
      i := i + 1;
    }
    assert pieces[..i] == pieces;
  }

  /** The inserted block splits back into its lines, and removing the indentation of the
      entity's lines gives its text back. */
  lemma BlockRoundTrip(perspectiveId: string, node: string)
    requires '\n' !in perspectiveId
    ensures var lines := ["", "[" + perspectiveId + "]"] + Indented(Split(node, '\n'));
            && Split(Join(lines, "\n"), '\n') == lines
            && Join(Unindented(lines[2..]), "\n") == node
  {
    var pieces := Split(node, '\n');
    var lines := ["", "[" + perspectiveId + "]"] + Indented(pieces);
    BlockHasNoBreak(perspectiveId, pieces);
    SplitJoin(lines, '\n');
    assert lines[2..] == Indented(pieces);
    UnindentIndented(pieces);
    JoinSplit(node, '\n');
  }

  lemma BlockHasNoBreak(perspectiveId: string, pieces: seq<string>)
    requires '\n' !in perspectiveId
    requires forall i | 0 <= i < |pieces| :: '\n' !in pieces[i]
    ensures var lines := ["", "[" + perspectiveId + "]"] + Indented(pieces);
            forall i | 0 <= i < |lines| :: '\n' !in lines[i]
  {
    var lines := ["", "[" + perspectiveId + "]"] + Indented(pieces);
    HeaderHasNoBreak(perspectiveId);
    forall i | 2 <= i < |lines| ensures '\n' !in lines[i] {
      assert lines[i] == Indented(pieces)[i - 2];
      assert '\n' !in pieces[i - 2];
    }
  }

  lemma HeaderHasNoBreak(perspectiveId: string)
    requires '\n' !in perspectiveId
    ensures '\n' !in "[" + perspectiveId + "]"
  {
    var h := "[" + perspectiveId + "]";
    forall k | 0 <= k < |h| ensures h[k] != '\n' {
      if 0 < k < |h| - 1 {
        assert h[k] == perspectiveId[k - 1];
      }
    }
  }

  lemma UnindentIndented(pieces: seq<string>)
    ensures Unindented(Indented(pieces)) == pieces
  {
    var r := Unindented(Indented(pieces));
    forall i | 0 <= i < |pieces| ensures r[i] == pieces[i] {
      if pieces[i] != "" {
        assert ("\t" + pieces[i])[1..] == pieces[i];
      }
    }
  }

  // ---------------------------------------------------------------------------
  // provideDocumentDropEdits

  /** `provideDocumentDropEdits` for a drop at `character` of the line `lineText` of the
      document `docUri`. `enabled` is the `editor.drop.enabled` setting, `transferOk` that
      a transfer was given and not cancelled, `urlList` its `text/uri-list` item. */
  method ProvideDropEdits(host: Host, enabled: bool, transferOk: bool, urlList: Option<string>, docUri: string,
                          lineText: string, character: nat)
    returns (r: DropResult)
    ensures !enabled || !transferOk || !(urlList.Some? && urlList.value != "") ==> r == NoDrop
    ensures enabled && transferOk && urlList.Some? && urlList.value != "" ==>
      var uris := Parsed(host, Split(urlList.value, '\n'));
      && (uris == [] ==> r == NoDrop)
      && (uris != [] && host.sameUri(uris[0], docUri) ==>
            var id := host.perspectiveOf(uris[0]);
            var name := Second(id, '.');
            r == DropEdit(if name.Some? && name.value != ""
                          then InsertText(lineText, character, host.dropProperties(Head(id, '.')), host.sectionName(name.value))
                          else ""))
      && (uris != [] && !host.sameUri(uris[0], docUri) ==>
            var node := host.nodeOf(uris[0]);
            r == DropEdit(if node.Some? && node.value != ""
                          then Join(["", "[" + host.perspectiveOf(uris[0]) + "]"] + Indented(Split(node.value, '\n')), "\n")
                          else ""))
  {
    if !enabled || !transferOk || !(urlList.Some? && urlList.value != "") {
      return NoDrop;
    }
    var uris := CollectUris(host, urlList.value);
    if |uris| == 0 {
      return NoDrop;
    }
    if host.sameUri(uris[0], docUri) {
      var id := host.perspectiveOf(uris[0]);
      var nodeType := Head(id, '.');
      var nodeName := Second(id, '.');
      var properties := host.dropProperties(nodeType);
      if nodeName.Some? && nodeName.value != "" {
        return DropEdit(InsertText(lineText, character, properties, host.sectionName(nodeName.value)));
      }
      return DropEdit("");
    }
    var node := host.nodeOf(uris[0]);
    if node.Some? && node.value != "" {
      var lines := BlockLines(host.perspectiveOf(uris[0]), node.value);
      return DropEdit(Join(lines, "\n"));
    }
    r := DropEdit("");
  }
}
