/** alembic/versions/041_structured_content_columns.py `_parse_quick_context`: machine markers out of human text. */
module QuickContext {
  import opened OptionType
  import opened Text

  datatype Value = Str(text: string) | Items(items: seq<string>) | Flag

  type Markers = map<string, Value>

  /** Whole-line markers: prefix, key, list-valued. */
  datatype LineMarker = LineMarker(prefix: string, key: string, isList: bool)

  const LINE_MARKERS: seq<LineMarker> := [
    LineMarker("original_developer:", "original_developer", false),
    LineMarker("documenter:", "documenter", false),
    LineMarker("required_cells:", "required_cells", true),
    LineMarker("pr_author:", "pr_author", false)]

  const HEAD := "external_pr_head="
  const HEAL := "self_heal_fp="
  const SUPERSEDE := "external_pr_supersede"
  const DOC_NOTES := "doc_notes:"
  const DISMISSED := "dismissed=1"

  /** The first whole-line marker that the line starts with. */
  function FindLineMarker(line: string): (m: Option<LineMarker>)
    ensures m.Some? ==> m.value in LINE_MARKERS && m.value.prefix <= line
    ensures m.None? ==> forall k | k in LINE_MARKERS :: !(k.prefix <= line)
  {
    if LINE_MARKERS[0].prefix <= line then Some(LINE_MARKERS[0])
    else if LINE_MARKERS[1].prefix <= line then Some(LINE_MARKERS[1])
    else if LINE_MARKERS[2].prefix <= line then Some(LINE_MARKERS[2])
    else if LINE_MARKERS[3].prefix <= line then Some(LINE_MARKERS[3])
    else None
  }

  function LineValue(m: LineMarker, line: string): Value
    requires m.prefix <= line
  {
    var val := Strip(line[|m.prefix|..]);
    if m.isList then Items(NonBlank(SplitOn(val, ','))) else Str(val)
  }

  /** What one token contributes: a marker, or nothing when it is human text. */
  function TokenMarker(tok: string): Option<(string, Value)> {
    if tok == DISMISSED then Some(("dismissed", Flag))
    else if HEAD <= tok then Some(("external_pr_head", Str(tok[|HEAD|..])))
    else if HEAL <= tok then Some(("self_heal_fp", Str(tok[|HEAL|..])))
    else None
  }

  function TokenMarkers(markers: Markers, toks: seq<string>): Markers {
    if toks == [] then markers
    else
      var m := TokenMarkers(markers, toks[..|toks| - 1]);
      match TokenMarker(toks[|toks| - 1])
      case Some((key, value)) => m[key := value]
      case None => m
  }

  function Leftover(toks: seq<string>): seq<string> {
    if toks == [] then []
    else
      var rest := Leftover(toks[..|toks| - 1]);
      if TokenMarker(toks[|toks| - 1]).Some? then rest else rest + [toks[|toks| - 1]]
  }

  datatype Parsed = Parsed(markers: Markers, remainder: seq<string>)

  /** One stripped line. */
  function ParseLine(p: Parsed, line: string): Parsed {
    var marker := FindLineMarker(line);
    if line == "" then p
    else if marker.Some? then p.(markers := p.markers[marker.value.key := LineValue(marker.value, line)])
    else if SUPERSEDE <= line then
      p.(markers := p.markers["external_pr_supersede" := Str(Strip(line[|SUPERSEDE|..]))])
    else if DOC_NOTES <= line then
      var text := Strip(line[|DOC_NOTES|..]);
      if text == "" then p else p.(remainder := p.remainder + [text])
    else
      var left := Leftover(Tokens(line));
      Parsed(TokenMarkers(p.markers, Tokens(line)),
             if left == [] then p.remainder else p.remainder + [JoinWith(left, ' ')])
  }

  function ParseLines(lines: seq<string>): Parsed {
    if lines == [] then Parsed(map[], [])
    else ParseLine(ParseLines(lines[..|lines| - 1]), Strip(lines[|lines| - 1]))
  }

  function NoneIfEmpty(s: string): Option<string> {
    if s == "" then None else Some(s)
  }

  function ParseSpec(blob: Option<string>): (Markers, Option<string>) {
    var p := ParseLines(SplitLines(blob.GetOr("")));
    (p.markers, NoneIfEmpty(Strip(JoinWith(p.remainder, '\n'))))
  }

  lemma TokensNext(markers: Markers, toks: seq<string>, j: nat)
    requires j < |toks|
    ensures var m := TokenMarker(toks[j]);
            && TokenMarkers(markers, toks[..j + 1]) ==
               (var before := TokenMarkers(markers, toks[..j]); if m.Some? then before[m.value.0 := m.value.1] else before)
            && Leftover(toks[..j + 1]) == (if m.Some? then Leftover(toks[..j]) else Leftover(toks[..j]) + [toks[j]])
  {
    hide TokenMarker;
    assert toks[..j + 1][..j] == toks[..j];
  }

  lemma NoTokens(markers: Markers, toks: seq<string>)
    ensures TokenMarkers(markers, toks[..0]) == markers && Leftover(toks[..0]) == []
  {
  }

  lemma LinesNext(lines: seq<string>, i: nat)
    requires i < |lines|
    ensures ParseLines(lines[..i + 1]) == ParseLine(ParseLines(lines[..i]), Strip(lines[i]))
  {
    hide ParseLine, Strip;
    assert lines[..i + 1][..i] == lines[..i];
  }

  /** The source's two loops. */
  method Parse(blob: Option<string>) returns (markers: Markers, human: Option<string>)
    ensures (markers, human) == ParseSpec(blob)
  {
    hide TokenMarker, TokenMarkers, Leftover, LineValue, Strip, Tokens, JoinWith, SplitLines, FindLineMarker;
    var lines := SplitLines(blob.GetOr(""));
    markers := map[];
    var remainder: seq<string> := [];
    var i := 0;
    while i < |lines|
      invariant 0 <= i <= |lines|
      invariant Parsed(markers, remainder) == ParseLines(lines[..i])
    {
      var line := Strip(lines[i]);
      LinesNext(lines, i);
      i := i + 1;
      if line == "" {
        continue;
      }
      var marker := FindLineMarker(line);
      if marker.Some? {
        markers := markers[marker.value.key := LineValue(marker.value, line)];
        continue;
      }
      if SUPERSEDE <= line {
        markers := markers["external_pr_supersede" := Str(Strip(line[|SUPERSEDE|..]))];
        continue;
      }
      if DOC_NOTES <= line {
        var text := Strip(line[|DOC_NOTES|..]);
        if text != "" {
          remainder := remainder + [text];
        }
        continue;
      }
      var toks := Tokens(line);
      var leftover: seq<string> := [];
      ghost var before := markers;
      NoTokens(markers, toks);
      var j := 0;
      while j < |toks|
        invariant 0 <= j <= |toks|
        invariant markers == TokenMarkers(before, toks[..j])
        invariant leftover == Leftover(toks[..j])
      {
        TokensNext(before, toks, j);
        match TokenMarker(toks[j]) {
          case Some((key, value)) => markers := markers[key := value];
          case None => leftover := leftover + [toks[j]];
        }
        j := j + 1;
      }
      assert toks[..j] == toks;
      if leftover != [] {
        remainder := remainder + [JoinWith(leftover, ' ')];
      }
    }
    assert lines[..i] == lines;
    human := NoneIfEmpty(Strip(JoinWith(remainder, '\n')));
  }

  // ---- Every token that is not consumed survives, in order ----

  /** The human tokens of one stripped line. */
  function HumanTokens(line: string): seq<string> {
    if line == "" || FindLineMarker(line).Some? || SUPERSEDE <= line then []
    else if DOC_NOTES <= line then Tokens(line[|DOC_NOTES|..])
    else Leftover(Tokens(line))
  }

  function HumanTokensOf(lines: seq<string>): seq<string> {
    if lines == [] then []
    else HumanTokensOf(lines[..|lines| - 1]) + HumanTokens(Strip(lines[|lines| - 1]))
  }
}
