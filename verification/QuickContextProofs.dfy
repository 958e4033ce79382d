/** Nothing human is lost by the split, and printing then parsing gives back what was printed. */
module QuickContextProofs {
  import opened OptionType
  import opened Text
  import opened QuickContext

  // ---- Survival of human text ----

  lemma {:induction false} LeftoverSubset(toks: seq<string>)
    ensures forall t | t in Leftover(toks) :: t in toks
  {
    hide TokenMarker;
    if toks != [] {
      LeftoverSubset(toks[..|toks| - 1]);
    }
  }

  lemma LineKeepsHumanTokens(p: Parsed, line: string)
    ensures TokensOfAll(ParseLine(p, line).remainder) == TokensOfAll(p.remainder) + HumanTokens(line)
  {
    hide Tokens, IsSpace, IsWord, FindLineMarker, Strip, TokenMarker, LineValue, JoinWith, TokenMarkers, Leftover;
    if line != "" && FindLineMarker(line).None? && !(SUPERSEDE <= line) {
      if DOC_NOTES <= line {
        var rest := line[|DOC_NOTES|..];
        TokensStrip(rest);
        OneMore(p.remainder, Strip(rest));
      } else {
        var left := Leftover(Tokens(line));
        LeftoverSubset(Tokens(line));
        TokensAreWords(line);
        WordsAreTheirTokens(left);
        SpaceIsSpace();
        TokensOfJoin(left, ' ');
        OneMore(p.remainder, JoinWith(left, ' '));
      }
    }
  }

  lemma OneMore(parts: seq<string>, s: string)
    ensures TokensOfAll(parts + [s]) == TokensOfAll(parts) + Tokens(s)
    ensures s == "" ==> Tokens(s) == []
  {
    hide Tokens;
    TokensOfAllAppend(parts, [s]);
    assert TokensOfAll([s]) == Tokens(s) + [];
    EmptyHasNoTokens();
  }

  lemma {:induction false} LinesKeepHumanTokens(lines: seq<string>)
    ensures TokensOfAll(ParseLines(lines).remainder) == HumanTokensOf(lines)
  {
    hide ParseLine, HumanTokens, Tokens, Strip;
    if lines != [] {
      LinesKeepHumanTokens(lines[..|lines| - 1]);
      LineKeepsHumanTokens(ParseLines(lines[..|lines| - 1]), Strip(lines[|lines| - 1]));
    }
  }

  /** For any blob: the tokens of the human remainder are exactly those no marker consumed, in their order. */
  lemma HumanTokensSurvive(blob: Option<string>)
    ensures Tokens(ParseSpec(blob).1.GetOr("")) == HumanTokensOf(SplitLines(blob.GetOr("")))
  {
    hide Tokens, Strip, JoinWith, ParseLines, SplitLines, HumanTokensOf;
    var lines := SplitLines(blob.GetOr(""));
    var p := ParseLines(lines);
    LinesKeepHumanTokens(lines);
    SpaceIsSpace();
    TokensOfJoin(p.remainder, '\n');
    TokensStrip(JoinWith(p.remainder, '\n'));
  }

  // ---- One line of words, on the words ----

  /** The word is a marker that sets the key to the value. */
  predicate Names(w: string, key: string, value: Value) {
    || (key == "dismissed" && value == Flag && w == "dismissed=1")
    || (key == "external_pr_head" && value.Str? && w == "external_pr_head=" + value.text)
    || (key == "self_heal_fp" && value.Str? && w == "self_heal_fp=" + value.text)
  }

  ghost predicate NamesKey(w: string, key: string) {
    exists value :: Names(w, key, value)
  }

  ghost predicate IsMarkerWord(w: string) {
    exists key :: NamesKey(w, key)
  }

  /** The last word that names the key, at `j`, gives it this value. */
  ghost predicate LastNames(words: seq<string>, j: nat, key: string, value: Value) {
    j < |words| && Names(words[j], key, value) && forall i | j < i < |words| :: !NamesKey(words[i], key)
  }

  /** What the key holds after the words: the value of the last word that names it, else the one it had. */
  ghost predicate HoldsAfter(before: Markers, words: seq<string>, key: string, value: Value) {
    || (exists j: nat :: LastNames(words, j, key, value))
    || ((forall w | w in words :: !NamesKey(w, key)) && key in before && before[key] == value)
  }

  /** The words that are no markers, in order. */
  ghost function PlainWords(words: seq<string>): seq<string> {
    if words == [] then []
    else PlainWords(words[..|words| - 1]) + if IsMarkerWord(words[|words| - 1]) then [] else [words[|words| - 1]]
  }

  lemma TokenMarkerNames(w: string)
    ensures forall key, value :: Names(w, key, value) <==> TokenMarker(w) == Some((key, value))
  {
    HeadTailEqual(w);
    HealTailEqual(w);
    DifferentMarkers(w);
  }

  lemma HeadTailEqual(w: string)
    ensures HEAD <= w ==> w == "external_pr_head=" + w[|HEAD|..]
    ensures forall text :: w == "external_pr_head=" + text ==> HEAD <= w && w[|HEAD|..] == text
  {
  }

  lemma HealTailEqual(w: string)
    ensures HEAL <= w ==> w == "self_heal_fp=" + w[|HEAL|..]
    ensures forall text :: w == "self_heal_fp=" + text ==> HEAL <= w && w[|HEAL|..] == text
  {
  }

  lemma DifferentMarkers(w: string)
    ensures HEAD <= w ==> !(HEAL <= w) && w != DISMISSED
    ensures HEAL <= w ==> w != DISMISSED
  {
    assert HEAD[0] == 'e' && HEAL[0] == 's' && DISMISSED[0] == 'd';
  }

  lemma MarkerWordIff(w: string)
    ensures IsMarkerWord(w) <==> TokenMarker(w).Some?
    ensures forall key :: NamesKey(w, key) <==> TokenMarker(w).Some? && TokenMarker(w).value.0 == key
  {
    TokenMarkerNames(w);
    hide TokenMarker, Names;
    if TokenMarker(w).Some? {
      var (key, value) := TokenMarker(w).value;
      assert Names(w, key, value);
      assert NamesKey(w, key);
    }
  }

  lemma HoldsNext(before: Markers, words: seq<string>, w: string, key: string, value: Value)
    ensures HoldsAfter(before, words + [w], key, value) <==>
            Names(w, key, value) || (!NamesKey(w, key) && HoldsAfter(before, words, key, value))
  {
    hide Names, NamesKey;
    var all := words + [w];
    assert all[|words|] == w && forall i | 0 <= i < |words| :: all[i] == words[i];
    if Names(w, key, value) {
      assert LastNames(all, |words|, key, value);
    }
    if j: nat :| LastNames(words, j, key, value) {
      if !NamesKey(w, key) {
        assert LastNames(all, j, key, value);
      }
    }
    if j: nat :| LastNames(all, j, key, value) {
      if j < |words| {
        assert LastNames(words, j, key, value);
      }
    }
    NamedBy(w, key, value);
  }

  lemma NamedBy(w: string, key: string, value: Value)
    ensures Names(w, key, value) ==> NamesKey(w, key)
  {
  }

  lemma {:induction false} WordsSet(before: Markers, words: seq<string>)
    ensures forall key, value ::
              (key in TokenMarkers(before, words) && TokenMarkers(before, words)[key] == value)
              <==> HoldsAfter(before, words, key, value)
    ensures Leftover(words) == PlainWords(words)
  {
    hide TokenMarker, HoldsAfter, Names, NamesKey, IsMarkerWord;
    if words == [] {
      forall key, value
        ensures HoldsAfter(before, [], key, value) <==> key in before && before[key] == value
      {
        HoldsAtStart(before, key, value);
      }
    } else {
      var n := |words| - 1;
      WordsSet(before, words[..n]);
      TokenMarkerNames(words[n]);
      MarkerWordIff(words[n]);
      assert words == words[..n] + [words[n]];
      forall key, value
        ensures HoldsAfter(before, words, key, value) <==>
                Names(words[n], key, value) || (!NamesKey(words[n], key) && HoldsAfter(before, words[..n], key, value))
      {
        HoldsNext(before, words[..n], words[n], key, value);
      }
    }
  }

  lemma HoldsAtStart(before: Markers, key: string, value: Value)
    ensures HoldsAfter(before, [], key, value) <==> key in before && before[key] == value
  {
  }

  lemma LineOfWords(p: Parsed, words: seq<string>)
    requires words != [] && (forall w | w in words :: IsWord(w)) && Unprefixed(JoinWith(words, ' '))
    ensures OneLineText(JoinWith(words, ' ')) && JoinWith(words, ' ') != ""
    ensures ParseLine(p, Strip(JoinWith(words, ' '))) ==
            Parsed(TokenMarkers(p.markers, words),
                   p.remainder + if Leftover(words) == [] then [] else [JoinWith(Leftover(words), ' ')])
  {
    hide IsSpace, FindLineMarker, TokenMarker, TokenMarkers, Leftover, LineValue, Tokens, Strip, IsWord, IsLineBreak,
      Unprefixed, JoinWith, OneLineText;
    var line := JoinWith(words, ' ');
    UnprefixedIff(line);
    SpacedWords(words);
    TextStrips(line);
    SpaceIsSpace();
    TokensOfJoin(words, ' ');
    WordsAreTheirTokens(words);
    assert p.remainder + [] == p.remainder;
  }

  /**
   Any line of words that begins like no whole-line marker, markers and human words in any mixture: afterwards each key
   holds the value of the last word that names it, else what it held before, and the human words are kept in order.
   */
  lemma WordsParse(p: Parsed, words: seq<string>)
    requires words != [] && (forall w | w in words :: IsWord(w)) && Unprefixed(JoinWith(words, ' '))
    ensures var q := ParseLine(p, Strip(JoinWith(words, ' ')));
            && (forall key, value ::
                  (key in q.markers && q.markers[key] == value) <==> HoldsAfter(p.markers, words, key, value))
            && q.remainder == p.remainder + (if PlainWords(words) == [] then [] else [JoinWith(PlainWords(words), ' ')])
  {
    hide ParseLine, TokenMarkers, Leftover, Strip, IsWord, Unprefixed, JoinWith, OneLineText, HoldsAfter, PlainWords;
    LineOfWords(p, words);
    WordsSet(p.markers, words);
  }

  // ---- Whole-line markers, however they are spaced ----

  lemma BehindPrefix(a: string, prefix: string, b: string, text: string, c: string)
    requires prefix != "" && !IsSpace(prefix[0]) && !IsSpace(prefix[|prefix| - 1])
    requires AllSpace(a) && AllSpace(b) && AllSpace(c) && Stripped(text)
    ensures var line := Strip(a + prefix + b + text + c);
            prefix <= line && line == prefix + line[|prefix|..] && Strip(line[|prefix|..]) == text
  {
    hide IsSpace, Strip;
    if text == "" {
      PaddingStrips(a, prefix, b + c);
      EmptyStrips();
      assert a + prefix + b + text + c == a + prefix + (b + c);
      assert prefix[|prefix|..] == "";
    } else {
      var line := prefix + b + text;
      assert line[0] == prefix[0] && line[|line| - 1] == text[|text| - 1];
      PaddingStrips(a, line, c);
      PaddingStrips(b, text, "");
      assert a + prefix + b + text + c == a + line + c;
      assert line[|prefix|..] == b + text + "";
    }
  }

  lemma SupersedePlain()
    ensures SUPERSEDE != "" && !IsSpace(SUPERSEDE[0]) && !IsSpace(SUPERSEDE[|SUPERSEDE| - 1])
  {
    assert SUPERSEDE[0] == 'e' && SUPERSEDE[|SUPERSEDE| - 1] == 'e';
  }

  lemma SupersedeLine(line: string)
    requires SUPERSEDE <= line
    ensures line != "" && FindLineMarker(line).None?
  {
    assert line[0] == SUPERSEDE[0] == 'e';
    NoLinePrefix(line);
  }

  /** A line marker, with any white space around its value: the key is set to the value, a list's cells stripped. */
  lemma LineMarkerExactly(p: Parsed, a: string, key: string, b: string, text: string, c: string)
    requires AllSpace(a) && AllSpace(b) && AllSpace(c) && Stripped(text)
    requires key in {"original_developer", "documenter", "pr_author", "required_cells"}
    ensures ParseLine(p, Strip(a + (key + ":") + b + text + c)) ==
            p.(markers := p.markers[key := if key == "required_cells" then Items(NonBlank(SplitOn(text, ','))) else Str(text)])
  {
    hide IsSpace, AllSpace, Stripped, FindLineMarker, TokenMarkers, Leftover, Tokens, SplitOn, NonBlank, Strip;
    var m := LineMarkerFor(key);
    PrefixPlain(m);
    BehindPrefix(a, m.prefix, b, text, c);
    LinePrefixes(Strip(a + m.prefix + b + text + c)[|m.prefix|..]);
  }

  /** The cells of a list marker come back in order, without white space and without the empty ones. */
  lemma CellsExactly(p: Parsed, a: string, b: string, cells: seq<(string, string, string)>, c: string)
    requires AllSpace(a) && AllSpace(b) && AllSpace(c) && cells != [] && forall e | e in cells :: IsPadded(e)
    requires Stripped(JoinWith(PaddedParts(cells), ','))
    ensures ParseLine(p, Strip(a + "required_cells:" + b + JoinWith(PaddedParts(cells), ',') + c)) ==
            p.(markers := p.markers["required_cells" := Items(NamedEntries(cells))])
  {
    hide IsSpace, AllSpace, Stripped, IsPadded, ParseLine, SplitOn, NonBlank, Strip, JoinWith;
    assert "required_cells" + ":" == "required_cells:";
    LineMarkerExactly(p, a, "required_cells", b, JoinWith(PaddedParts(cells), ','), c);
    ListReadsBack(cells);
  }

  /** The marker of a superseding request, with any white space around its value. */
  lemma SupersedeExactly(p: Parsed, a: string, b: string, text: string, c: string)
    requires AllSpace(a) && AllSpace(b) && AllSpace(c) && Stripped(text)
    ensures ParseLine(p, Strip(a + "external_pr_supersede" + b + text + c)) ==
            p.(markers := p.markers["external_pr_supersede" := Str(text)])
  {
    hide IsSpace, AllSpace, Stripped, FindLineMarker, TokenMarkers, Leftover, Tokens, LineValue, Strip;
    SupersedePlain();
    BehindPrefix(a, SUPERSEDE, b, text, c);
    SupersedeLine(Strip(a + SUPERSEDE + b + text + c));
  }

  /** A documentation note keeps its text without the prefix, and an empty one leaves nothing. */
  lemma NoteExactly(p: Parsed, a: string, b: string, text: string, c: string)
    requires AllSpace(a) && AllSpace(b) && AllSpace(c) && Stripped(text)
    ensures ParseLine(p, Strip(a + "doc_notes:" + b + text + c)) ==
            p.(remainder := p.remainder + if text == "" then [] else [text])
  {
    hide IsSpace, AllSpace, Stripped, FindLineMarker, TokenMarkers, Leftover, Tokens, LineValue, Strip, NoBreak;
    NotePlain();
    BehindPrefix(a, DOC_NOTES, b, text, c);
    NotePrefix(Strip(a + DOC_NOTES + b + text + c)[|DOC_NOTES|..]);
    assert p.remainder + [] == p.remainder;
  }

  /** White space around the lines of a blob makes no difference. */
  lemma {:induction false} OnlyStrippedLinesCount(a: seq<string>, b: seq<string>)
    requires |a| == |b| && forall i | 0 <= i < |a| :: Strip(a[i]) == Strip(b[i])
    ensures ParseLines(a) == ParseLines(b)
  {
    hide Strip, ParseLine;
    if a != [] {
      OnlyStrippedLinesCount(a[..|a| - 1], b[..|b| - 1]);
    }
  }

  // ---- Round trip ----

  /** One word of a line: a marker that fits in a word, or human text. */
  datatype Part = Named(key: string, value: Value) | Word(text: string)

  /** A line of a blob to print: one marker, human text, words of both kinds mixed, or a documentation note. */
  datatype Item = Mark(key: string, value: Value) | Human(line: string) | Mixed(parts: seq<Part>) | Note(text: string)

  predicate NoBreak(s: string) {
    forall i | 0 <= i < |s| :: !IsLineBreak(s[i])
  }

  predicate OneLineText(s: string) {
    Stripped(s) && NoBreak(s)
  }

  predicate NoSpace(s: string) {
    forall i | 0 <= i < |s| :: !IsSpace(s[i])
  }

  /** The line begins like none of the markers that take a whole line. */
  predicate Unprefixed(line: string) {
    && !("original_developer:" <= line) && !("documenter:" <= line)
    && !("required_cells:" <= line) && !("pr_author:" <= line)
    && !("external_pr_supersede" <= line) && !("doc_notes:" <= line)
  }

  /** A word that is no marker. */
  predicate HumanWord(w: string) {
    w != "dismissed=1" && !("external_pr_head=" <= w) && !("self_heal_fp=" <= w)
  }

  /** White-space normalised text that neither is nor holds a marker. */
  predicate HumanLine(line: string) {
    && line != "" && line == JoinWith(Tokens(line), ' ') && Unprefixed(line)
    && (forall t | t in Tokens(line) :: HumanWord(t))
  }

  /** The marker values that fit the format of their key. */
  predicate Fits(key: string, value: Value) {
    if key in {"original_developer", "documenter", "pr_author", "external_pr_supersede"} then
      value.Str? && OneLineText(value.text)
    else if key == "required_cells" then
      value.Items? && forall c | c in value.items :: Cell(c)
    else if key in {"external_pr_head", "self_heal_fp"} then value.Str? && NoSpace(value.text)
    else key == "dismissed" && value == Flag
  }

  predicate PartFits(part: Part) {
    match part
    case Named(key, value) => key in {"external_pr_head", "self_heal_fp", "dismissed"} && Fits(key, value)
    case Word(text) => IsWord(text) && HumanWord(text)
  }

  predicate Printable(item: Item) {
    match item
    case Mark(key, value) => Fits(key, value)
    case Human(line) => HumanLine(line)
    case Mixed(parts) =>
      parts != [] && (forall part | part in parts :: PartFits(part)) && Unprefixed(JoinWith(PartTexts(parts), ' '))
    case Note(text) => OneLineText(text)
  }

  function PartText(part: Part): string
    requires PartFits(part)
  {
    match part
    case Word(text) => text
    case Named(key, value) =>
      if key == "dismissed" then "dismissed=1"
      else if key == "external_pr_head" then "external_pr_head=" + value.text
      else "self_heal_fp=" + value.text
  }

  function PartTexts(parts: seq<Part>): seq<string>
    requires forall part | part in parts :: PartFits(part)
  {
    if parts == [] then [] else PartTexts(parts[..|parts| - 1]) + [PartText(parts[|parts| - 1])]
  }

  function Print(item: Item): string
    requires Printable(item)
  {
    match item
    case Human(line) => line
    case Mixed(parts) => JoinWith(PartTexts(parts), ' ')
    case Note(text) => "doc_notes:" + text
    case Mark(key, value) =>
      if key == "dismissed" then "dismissed=1"
      else if key == "external_pr_head" then "external_pr_head=" + value.text
      else if key == "self_heal_fp" then "self_heal_fp=" + value.text
      else if key == "external_pr_supersede" then "external_pr_supersede " + value.text
      else if key == "required_cells" then "required_cells:" + JoinWith(value.items, ',')
      else key + ":" + value.text
  }

  function PrintAll(items: seq<Item>): seq<string>
    requires forall i | i in items :: Printable(i)
  {
    if items == [] then [] else PrintAll(items[..|items| - 1]) + [Print(items[|items| - 1])]
  }

  /** The markers of a line's words set one after the other. */
  function ApplyParts(m: Markers, parts: seq<Part>): Markers {
    if parts == [] then m
    else
      var before := ApplyParts(m, parts[..|parts| - 1]);
      match parts[|parts| - 1]
      case Named(key, value) => before[key := value]
      case Word(_) => before
  }

  function WordsOf(parts: seq<Part>): seq<string> {
    if parts == [] then []
    else
      var before := WordsOf(parts[..|parts| - 1]);
      match parts[|parts| - 1]
      case Named(_, _) => before
      case Word(text) => before + [text]
  }

  function MarksAfter(m: Markers, item: Item): Markers {
    match item
    case Mark(key, value) => m[key := value]
    case Mixed(parts) => ApplyParts(m, parts)
    case Human(_) => m
    case Note(_) => m
  }

  /** The markers named by the items, the last of each key winning. */
  function MarksOf(items: seq<Item>): Markers {
    if items == [] then map[] else MarksAfter(MarksOf(items[..|items| - 1]), items[|items| - 1])
  }

  function HumanText(item: Item): seq<string> {
    match item
    case Mark(_, _) => []
    case Mixed(parts) => if WordsOf(parts) == [] then [] else [JoinWith(WordsOf(parts), ' ')]
    case Human(line) => [line]
    case Note(text) => if text == "" then [] else [text]
  }

  function HumansOf(items: seq<Item>): seq<string> {
    if items == [] then [] else HumansOf(items[..|items| - 1]) + HumanText(items[|items| - 1])
  }

  lemma ItemsSnoc(items: seq<Item>, item: Item)
    ensures MarksOf(items + [item]) == MarksAfter(MarksOf(items), item)
    ensures HumansOf(items + [item]) == HumansOf(items) + HumanText(item)
  {
    hide MarksAfter, HumanText;
    assert (items + [item])[..|items|] == items;
  }

  lemma PrefixedIsStripped(prefix: string, text: string)
    requires prefix != "" && !IsSpace(prefix[0]) && !IsSpace(prefix[|prefix| - 1]) && Stripped(text)
    ensures Strip(prefix + text) == prefix + text && (prefix + text)[|prefix|..] == text
  {
    var s := prefix + text;
    assert s[0] == prefix[0];
    assert text == "" ==> s == prefix;
    assert text != "" ==> s[|s| - 1] == text[|text| - 1];
    TrimFixed(s);
  }

  lemma LinePrefixes(text: string)
    ensures FindLineMarker("original_developer:" + text) == Some(LINE_MARKERS[0])
    ensures FindLineMarker("documenter:" + text) == Some(LINE_MARKERS[1])
    ensures FindLineMarker("required_cells:" + text) == Some(LINE_MARKERS[2])
    ensures FindLineMarker("pr_author:" + text) == Some(LINE_MARKERS[3])
  {
    assert ("documenter:" + text)[0] == 'd';
    assert ("required_cells:" + text)[0] == 'r';
    assert ("pr_author:" + text)[0] == 'p';
  }

  lemma NoLinePrefix(line: string)
    requires |line| >= 2 && line[0] !in "orp" && (line[0] == 'd' ==> line[1] != 'o')
    ensures FindLineMarker(line).None? && !(DOC_NOTES <= line)
  {
  }

  /** A cell of the list marker: text that a comma-separated list can hold. */
  predicate Cell(c: string) {
    c != "" && OneLineText(c) && ',' !in c
  }

  lemma {:induction false} CellsJoin(items: seq<string>)
    requires forall c | c in items :: Cell(c)
    ensures OneLineText(JoinWith(items, ',')) && NonBlank(items) == items
    ensures items != [] ==> JoinWith(items, ',') != ""
  {
    hide Strip, Cell, OneLineText;
    if items == [] {
      EmptyIsText();
    } else {
      assert Cell(items[0]);
      CellStrips(items[0]);
      CellsJoin(items[1..]);
      if |items| > 1 {
        JoinedText(items[0], ',', JoinWith(items[1..], ','));
      }
    }
  }

  lemma EmptyIsText()
    ensures OneLineText("")
  {
  }

  lemma CellStrips(c: string)
    requires Cell(c)
    ensures c != "" && Strip(c) == c && OneLineText(c) && !IsLineBreak(',')
  {
    hide Strip, IsSpace;
    TrimFixed(c);
  }

  lemma JoinedText(a: string, sep: char, b: string)
    requires a != "" && b != "" && OneLineText(a) && OneLineText(b) && !IsLineBreak(sep)
    ensures OneLineText(a + [sep] + b)
  {
    hide IsSpace, IsLineBreak;
    var s := a + [sep] + b;
    assert s[0] == a[0] && s[|s| - 1] == b[|b| - 1];
  }

  lemma PrefixedLineParses(p: Parsed, m: LineMarker, text: string)
    requires m.prefix != "" && !IsSpace(m.prefix[0]) && !IsSpace(m.prefix[|m.prefix| - 1]) && Stripped(text)
    requires FindLineMarker(m.prefix + text) == Some(m)
    ensures ParseLine(p, Strip(m.prefix + text)) ==
            p.(markers := p.markers[m.key := if m.isList then Items(NonBlank(SplitOn(text, ','))) else Str(text)])
  {
    hide IsSpace, TokenMarker, TokenMarkers, Leftover, Tokens, SplitOn, Strip, FindLineMarker;
    PrefixedIsStripped(m.prefix, text);
    TrimFixed(text);
  }

  /** A line marker prints to a line that parses back to its value. */
  lemma LineMarkParses(p: Parsed, m: LineMarker, value: Value)
    requires m in LINE_MARKERS && Fits(m.key, value)
    ensures Print(Mark(m.key, value)) == m.prefix + MarkText(m, value)
    ensures ParseLine(p, Strip(m.prefix + MarkText(m, value))) == p.(markers := p.markers[m.key := value])
    ensures OneLineText(MarkText(m, value))
  {
    hide IsSpace, IsLineBreak, SplitOn, Strip, FindLineMarker, ParseLine, NonBlank;
    PrefixPlain(m);
    if m.isList {
      CellsJoin(value.items);
      CellsSplit(value.items);
    }
    LinePrefixes(MarkText(m, value));
    PrefixedLineParses(p, m, MarkText(m, value));
  }

  function MarkText(m: LineMarker, value: Value): string
    requires m in LINE_MARKERS && Fits(m.key, value)
  {
    if m.isList then JoinWith(value.items, ',') else value.text
  }

  lemma PrefixPlain(m: LineMarker)
    requires m in LINE_MARKERS
    ensures m.prefix != "" && !IsSpace(m.prefix[0]) && !IsSpace(m.prefix[|m.prefix| - 1])
    ensures m.isList <==> m.key == "required_cells"
    ensures m.key in {"original_developer", "documenter", "pr_author", "required_cells"} && m.prefix == m.key + ":"
  {
  }

  lemma CellsSplit(items: seq<string>)
    requires forall c | c in items :: Cell(c)
    ensures NonBlank(SplitOn(JoinWith(items, ','), ',')) == items
  {
    hide IsSpace, IsLineBreak;
    CellsJoin(items);
    if items == [] {
      EmptyStrips();
      IndexOfIs("", ',', 0);
      assert SplitOn("", ',') == [""];
    } else {
      SplitJoin(items, ',');
    }
  }

  lemma EmptyStrips()
    ensures Strip("") == ""
  {
  }

  /** A token marker on a line of its own. */
  lemma TokenMarkParses(p: Parsed, w: string, key: string, value: Value)
    requires IsWord(w) && TokenMarker(w) == Some((key, value))
    requires FindLineMarker(w).None? && !(SUPERSEDE <= w) && !(DOC_NOTES <= w)
    ensures ParseLine(p, Strip(w)) == p.(markers := p.markers[key := value])
  {
    hide IsSpace, TokenMarker, FindLineMarker, Strip, Tokens, LineValue;
    TrimFixed(w);
    WordIsItsToken(w);
    assert [w][..0] == [];
    assert TokenMarkers(p.markers, [w]) == p.markers[key := value];
    assert Leftover([w]) == [];
  }

  lemma Prefixed(prefix: string, text: string)
    requires IsWord(prefix) && NoSpace(text)
    ensures IsWord(prefix + text) && (prefix + text)[|prefix|..] == text && prefix <= prefix + text
  {
    hide IsSpace;
  }

  lemma HeadPrefix(w: string)
    requires HEAD <= w
    ensures |w| >= 2 && w[0] == 'e' && w != DISMISSED && !(SUPERSEDE <= w)
  {
    assert w[0] == HEAD[0] && w[12] == HEAD[12] == 'h' && SUPERSEDE[12] != 'h';
  }

  lemma HealPrefix(w: string)
    requires HEAL <= w
    ensures |w| >= 2 && w[0] == 's' && w != DISMISSED && !(SUPERSEDE <= w) && !(HEAD <= w)
  {
    assert w[0] == HEAL[0] == 's';
  }

  lemma PrefixWords()
    ensures IsWord(HEAD) && IsWord(HEAL)
  {
  }

  lemma HeadWord(text: string)
    requires NoSpace(text)
    ensures var w := HEAD + text;
            && IsWord(w) && TokenMarker(w) == Some(("external_pr_head", Str(text)))
            && FindLineMarker(w).None? && !(SUPERSEDE <= w) && !(DOC_NOTES <= w)
  {
    hide FindLineMarker, IsWord, NoSpace;
    PrefixWords();
    Prefixed(HEAD, text);
    HeadPrefix(HEAD + text);
    NoLinePrefix(HEAD + text);
  }

  lemma HealWord(text: string)
    requires NoSpace(text)
    ensures var w := HEAL + text;
            && IsWord(w) && TokenMarker(w) == Some(("self_heal_fp", Str(text)))
            && FindLineMarker(w).None? && !(SUPERSEDE <= w) && !(DOC_NOTES <= w)
  {
    hide FindLineMarker, IsWord, NoSpace;
    PrefixWords();
    Prefixed(HEAL, text);
    HealPrefix(HEAL + text);
    NoLinePrefix(HEAL + text);
  }

  lemma DismissedIsWord()
    ensures IsWord(DISMISSED)
  {
  }

  lemma DismissedWord()
    ensures var w := DISMISSED;
            && IsWord(w) && TokenMarker(w) == Some(("dismissed", Flag))
            && FindLineMarker(w).None? && !(SUPERSEDE <= w) && !(DOC_NOTES <= w)
  {
    DismissedIsWord();
    hide FindLineMarker, IsWord;
    NoLinePrefix(DISMISSED);
  }

  lemma SupersedeParses(p: Parsed, text: string)
    requires OneLineText(text)
    ensures ParseLine(p, Strip(SUPERSEDE + " " + text)) == p.(markers := p.markers["external_pr_supersede" := Str(text)])
  {
    hide ParseLine, Strip, IsSpace;
    SpaceIsSpace();
    SupersedeExactly(p, "", " ", text, "");
    assert "" + "external_pr_supersede" + " " + text + "" == SUPERSEDE + " " + text;
  }

  lemma {:induction false} NothingConsumed(markers: Markers, toks: seq<string>)
    requires forall t | t in toks :: TokenMarker(t).None?
    ensures TokenMarkers(markers, toks) == markers && Leftover(toks) == toks
  {
    hide TokenMarker;
    if toks != [] {
      NothingConsumed(markers, toks[..|toks| - 1]);
    }
  }

  lemma {:induction false} SpacedWords(ws: seq<string>)
    requires forall w | w in ws :: IsWord(w)
    ensures OneLineText(JoinWith(ws, ' ')) && (ws != [] ==> JoinWith(ws, ' ') != "")
  {
    hide IsSpace;
    if ws != [] {
      assert ws[0] in ws;
      WordIsText(ws[0]);
      SpacedWords(ws[1..]);
      if |ws| > 1 {
        JoinedText(ws[0], ' ', JoinWith(ws[1..], ' '));
      }
    }
  }

  lemma WordIsText(w: string)
    requires NoSpace(w)
    ensures OneLineText(w)
  {
  }

  lemma UnprefixedIff(line: string)
    ensures Unprefixed(line) <==> FindLineMarker(line).None? && !(SUPERSEDE <= line) && !(DOC_NOTES <= line)
  {
  }

  lemma HumanWordIff(w: string)
    ensures HumanWord(w) <==> TokenMarker(w).None?
  {
  }

  lemma HumanParses(p: Parsed, line: string)
    requires HumanLine(line)
    ensures ParseLine(p, Strip(line)) == p.(remainder := p.remainder + [line])
    ensures OneLineText(line)
  {
    forall t | t in Tokens(line)
      ensures TokenMarker(t).None?
    {
      HumanWordIff(t);
    }
    hide ParseLine, TokenMarker, TokenMarkers, Leftover, Tokens, Strip, IsWord, Unprefixed, HumanWord, JoinWith, OneLineText;
    NoWords();
    TokensAreWords(line);
    LineOfWords(p, Tokens(line));
    NothingConsumed(p.markers, Tokens(line));
  }

  lemma NoWords()
    ensures JoinWith([], ' ') == ""
  {
  }

  lemma PartMarker(part: Part)
    requires PartFits(part)
    ensures IsWord(PartText(part))
    ensures TokenMarker(PartText(part)) == match part { case Named(key, value) => Some((key, value)) case Word(_) => None }
  {
    hide IsWord, TokenMarker, FindLineMarker, IsSpace, HumanWord;
    match part
    case Word(text) =>
      HumanWordIff(text);
    case Named(key, value) =>
      if key == "dismissed" {
        DismissedWord();
      } else if key == "external_pr_head" {
        HeadWord(value.text);
      } else {
        HealWord(value.text);
      }
  }

  lemma {:induction false} PartsConsumed(m: Markers, parts: seq<Part>)
    requires forall part | part in parts :: PartFits(part)
    ensures forall t | t in PartTexts(parts) :: IsWord(t)
    ensures TokenMarkers(m, PartTexts(parts)) == ApplyParts(m, parts)
    ensures Leftover(PartTexts(parts)) == WordsOf(parts)
  {
    hide IsWord, TokenMarker, PartText, PartFits;
    if parts != [] {
      var n := |parts| - 1;
      PartsConsumed(m, parts[..n]);
      PartMarker(parts[n]);
      var texts := PartTexts(parts[..n]);
      assert PartFits(parts[n]);
      assert PartTexts(parts) == texts + [PartText(parts[n])];
      assert (texts + [PartText(parts[n])])[..|texts + [PartText(parts[n])]| - 1] == texts;
      PartWord(parts[n]);
    }
  }

  lemma PartWord(part: Part)
    requires PartFits(part)
    ensures part.Word? ==> PartText(part) == part.text
  {
  }

  /** A line of words, markers and human text mixed: every marker is set, and the human words stay, in order. */
  lemma MixedParses(p: Parsed, parts: seq<Part>)
    requires Printable(Mixed(parts))
    ensures ParseLine(p, Strip(Print(Mixed(parts)))) ==
            Parsed(ApplyParts(p.markers, parts), p.remainder + HumanText(Mixed(parts)))
    ensures OneLineText(Print(Mixed(parts))) && Print(Mixed(parts)) != ""
  {
    hide ParseLine, TokenMarkers, Leftover, Strip, IsWord, Unprefixed, PartFits, PartTexts, JoinWith, OneLineText;
    PartsConsumed(p.markers, parts);
    PartsNonempty(parts);
    LineOfWords(p, PartTexts(parts));
  }

  lemma PartsNonempty(parts: seq<Part>)
    requires parts != [] && forall part | part in parts :: PartFits(part)
    ensures PartTexts(parts) != []
  {
  }

  lemma TextStrips(line: string)
    requires OneLineText(line)
    ensures Strip(line) == line
  {
    hide Strip, IsSpace;
    TrimFixed(line);
  }

  lemma NotePrefix(text: string)
    ensures var line := "doc_notes:" + text;
            FindLineMarker(line).None? && !(SUPERSEDE <= line) && DOC_NOTES <= line && line[|DOC_NOTES|..] == text
  {
    var line := "doc_notes:" + text;
    assert line[0] == 'd' && line[3] == '_';
  }

  lemma NotePlain()
    ensures !IsSpace('d') && !IsSpace(':') && DOC_NOTES[0] == 'd' && DOC_NOTES[|DOC_NOTES| - 1] == ':'
    ensures NoBreak(DOC_NOTES)
  {
  }

  /** A printed note stays as human text without its prefix. */
  lemma NoteParses(p: Parsed, text: string)
    requires OneLineText(text)
    ensures ParseLine(p, Strip("doc_notes:" + text)) == p.(remainder := p.remainder + if text == "" then [] else [text])
    ensures NoBreak("doc_notes:" + text)
  {
    NotePlain();
    hide IsSpace, ParseLine, Strip, IsLineBreak;
    NoteExactly(p, "", "", text, "");
    assert "" + "doc_notes:" + "" + text + "" == "doc_notes:" + text;
    NoBreakJoins(DOC_NOTES, text);
  }

  lemma SupersedePrints(text: string)
    ensures "external_pr_supersede " + text == SUPERSEDE + " " + text
  {
    assert SUPERSEDE + " " == "external_pr_supersede ";
  }

  /** A printed marker, parsed, is set. */
  lemma MarkParses(p: Parsed, key: string, value: Value)
    requires Fits(key, value)
    ensures ParseLine(p, Strip(Print(Mark(key, value)))) == p.(markers := p.markers[key := value])
  {
    hide IsSpace, FindLineMarker, TokenMarker, LineValue, Tokens, Strip, IsWord, ParseLine, NonBlank, IsLineBreak;
    if key == "dismissed" {
      DismissedWord();
      TokenMarkParses(p, DISMISSED, key, value);
    } else if key == "external_pr_head" {
      HeadWord(value.text);
      TokenMarkParses(p, HEAD + value.text, key, value);
    } else if key == "self_heal_fp" {
      HealWord(value.text);
      TokenMarkParses(p, HEAL + value.text, key, value);
    } else if key == "external_pr_supersede" {
      SupersedePrints(value.text);
      SupersedeParses(p, value.text);
    } else {
      LineMarkParses(p, LineMarkerFor(key), value);
    }
  }

  function LineMarkerFor(key: string): (m: LineMarker)
    requires key in {"original_developer", "documenter", "pr_author", "required_cells"}
    ensures m in LINE_MARKERS && m.key == key && m.prefix == key + ":"
  {
    if key == "original_developer" then LINE_MARKERS[0]
    else if key == "documenter" then LINE_MARKERS[1]
    else if key == "required_cells" then LINE_MARKERS[2]
    else LINE_MARKERS[3]
  }

  lemma NoBreakJoins(a: string, b: string)
    requires NoBreak(a) && NoBreak(b)
    ensures NoBreak(a + b)
  {
  }

  lemma TokenPrefixesAreOneLine()
    ensures NoBreak(HEAD) && NoBreak(HEAL)
  {
  }

  lemma WordPrefixesAreOneLine()
    ensures NoBreak(DISMISSED) && NoBreak(SUPERSEDE + " ")
  {
  }

  lemma LinePrefixesAreOneLine()
    ensures forall m | m in LINE_MARKERS :: NoBreak(m.prefix)
  {
    hide NoBreak;
    assert NoBreak("original_developer:") by { OriginalIsOneLine(); }
    assert NoBreak("documenter:") && NoBreak("required_cells:") by { DocumenterIsOneLine(); }
    assert NoBreak("pr_author:") by { AuthorIsOneLine(); }
  }

  lemma OriginalIsOneLine()
    ensures NoBreak("original_developer:")
  {
  }

  lemma DocumenterIsOneLine()
    ensures NoBreak("documenter:") && NoBreak("required_cells:")
  {
  }

  lemma AuthorIsOneLine()
    ensures NoBreak("pr_author:")
  {
  }

  /** A printed marker fills one line. */
  lemma MarkIsOneLine(key: string, value: Value)
    requires Fits(key, value)
    ensures Print(Mark(key, value)) != "" && NoBreak(Print(Mark(key, value)))
  {
    hide IsSpace, IsLineBreak, NoBreak;
    TokenPrefixesAreOneLine();
    WordPrefixesAreOneLine();
    LinePrefixesAreOneLine();
    if key in {"external_pr_head", "self_heal_fp"} {
      WordIsText(value.text);
      NoBreakJoins(HEAD, value.text);
      NoBreakJoins(HEAL, value.text);
    } else if key == "external_pr_supersede" {
      SupersedePrints(value.text);
      NoBreakJoins(SUPERSEDE + " ", value.text);
    } else if key != "dismissed" {
      var m := LineMarkerFor(key);
      LineMarkParses(Parsed(map[], []), m, value);
      NoBreakJoins(m.prefix, MarkText(m, value));
    }
  }

  /** One printed item, parsed: its marker is set, or its line is kept. */
  lemma PrintedParses(p: Parsed, item: Item)
    requires Printable(item)
    ensures ParseLine(p, Strip(Print(item))) == match item {
              case Mark(key, value) => p.(markers := p.markers[key := value])
              case Mixed(parts) => Parsed(ApplyParts(p.markers, parts), p.remainder + HumanText(item))
              case Human(line) => p.(remainder := p.remainder + [line])
              case Note(text) => p.(remainder := p.remainder + if text == "" then [] else [text])
            }
    ensures Print(item) != "" && NoBreak(Print(item))
  {
    hide Strip, ParseLine, HumanLine, Fits, NoBreak, HumanText, ApplyParts, JoinWith, PartFits, PartTexts, Unprefixed;
    match item
    case Human(line) =>
      HumanParses(p, line);
      HumanNonempty(line);
    case Mixed(parts) =>
      MixedParses(p, parts);
    case Note(text) =>
      NoteParses(p, text);
    case Mark(key, value) =>
      MarkParses(p, key, value);
      MarkIsOneLine(key, value);
  }

  lemma HumanNonempty(line: string)
    requires HumanLine(line)
    ensures line != ""
  {
  }

  lemma LinesSnoc(lines: seq<string>, line: string)
    ensures ParseLines(lines + [line]) == ParseLine(ParseLines(lines), Strip(line))
  {
    hide ParseLine, Strip;
    assert (lines + [line])[..|lines|] == lines;
  }

  lemma {:induction false} PrintedAllParse(items: seq<Item>)
    requires forall i | i in items :: Printable(i)
    ensures ParseLines(PrintAll(items)) == Parsed(MarksOf(items), HumansOf(items))
    ensures forall l | l in PrintAll(items) :: l != "" && NoBreak(l)
  {
    hide Printable, Print, ParseLine, ParseLines, MarksOf, HumansOf, MarksAfter, HumanText, Strip, NoBreak;
    if items == [] {
      NothingPrinted();
    } else {
      var n := |items| - 1;
      var before, item := items[..n], items[n];
      PrintedAllParse(before);
      assert items == before + [item];
      ItemsSnoc(before, item);
      ItemParses(Parsed(MarksOf(before), HumansOf(before)), item);
      LinesSnoc(PrintAll(before), Print(item));
    }
  }

  lemma NothingPrinted()
    ensures ParseLines([]) == Parsed(MarksOf([]), HumansOf([]))
  {
  }

  lemma ItemParses(p: Parsed, item: Item)
    requires Printable(item)
    ensures ParseLine(p, Strip(Print(item))) == Parsed(MarksAfter(p.markers, item), p.remainder + HumanText(item))
    ensures Print(item) != "" && NoBreak(Print(item))
  {
    hide Printable, Print, ParseLine, ApplyParts, WordsOf, JoinWith, Strip, NoBreak;
    PrintedParses(p, item);
    assert p.remainder + [] == p.remainder;
  }

  lemma {:induction false} SplitLinesJoin(lines: seq<string>)
    requires forall l | l in lines :: l != "" && NoBreak(l)
    ensures SplitLines(JoinWith(lines, '\n')) == lines
  {
    hide IsLineBreak;
    if lines != [] {
      assert lines[0] in lines && forall l | l in lines[1..] :: l in lines;
      SplitLinesJoin(lines[1..]);
      FirstLineSplits(lines[0], JoinWith(lines[1..], '\n'));
    }
  }

  lemma FirstLineSplits(l: string, rest: string)
    requires l != "" && NoBreak(l)
    ensures SplitLines(l) == [l] && SplitLines(l + ['\n'] + rest) == [l] + SplitLines(rest)
  {
    BreaksBreak();
    hide IsLineBreak, SplitLines;
    assert "\n"[0] == '\n' && "\n" != "\r";
    SplitLinesAt(l, "\n", rest);
    assert ['\n'] == "\n";
  }

  /** The blob made of printed items, one per line. */
  function Blob(items: seq<Item>): string
    requires forall i | i in items :: Printable(i)
  {
    JoinWith(PrintAll(items), '\n')
  }

  lemma {:induction false} WordsOfAreWords(parts: seq<Part>)
    requires forall part | part in parts :: PartFits(part)
    ensures forall w | w in WordsOf(parts) :: IsWord(w)
  {
    hide IsWord, Fits;
    if parts != [] {
      assert PartFits(parts[|parts| - 1]);
      WordsOfAreWords(parts[..|parts| - 1]);
    }
  }

  lemma HumanIsText(item: Item)
    requires Printable(item)
    ensures forall l | l in HumanText(item) :: l != "" && Stripped(l)
  {
    hide IsSpace, HumanLine, Fits, IsWord, PartFits, Unprefixed, JoinWith;
    match item
    case Mark(_, _) =>
    case Human(line) =>
      HumanParses(Parsed(map[], []), line);
      HumanNonempty(line);
    case Mixed(parts) =>
      WordsOfAreWords(parts);
      SpacedWords(WordsOf(parts));
    case Note(_) =>
  }

  lemma {:induction false} HumansAreText(items: seq<Item>)
    requires forall i | i in items :: Printable(i)
    ensures forall l | l in HumansOf(items) :: l != "" && Stripped(l)
  {
    hide Stripped, Printable, HumanText;
    if items != [] {
      var n := |items| - 1;
      HumansAreText(items[..n]);
      assert Printable(items[n]);
      HumanIsText(items[n]);
    }
  }

  lemma {:induction false} JoinedIsStripped(parts: seq<string>)
    requires forall l | l in parts :: l != "" && Stripped(l)
    ensures Stripped(JoinWith(parts, '\n')) && (JoinWith(parts, '\n') == "" <==> parts == [])
  {
    hide IsSpace;
    if parts != [] {
      assert parts[0] in parts && forall l | l in parts[1..] :: l in parts;
      JoinedIsStripped(parts[1..]);
    }
  }

  /**
   The round trip: any list of printable items, markers and human lines in any order, parses back to its markers, the
   last of each key winning, and to its human lines in their order.
   */
  lemma RoundTrip(items: seq<Item>)
    requires forall i | i in items :: Printable(i)
    ensures var human := JoinWith(HumansOf(items), '\n');
            ParseSpec(Some(Blob(items))) == (MarksOf(items), if human == "" then None else Some(human))
  {
    hide Printable, Strip, JoinWith, ParseLines, SplitLines, PrintAll, MarksOf, HumansOf;
    PrintedAllParse(items);
    SplitLinesJoin(PrintAll(items));
    HumansAreText(items);
    JoinedIsStripped(HumansOf(items));
    TrimFixed(JoinWith(HumansOf(items), '\n'));
  }

  const KEYS := ["original_developer", "documenter", "required_cells", "pr_author",
                 "external_pr_head", "self_heal_fp", "external_pr_supersede", "dismissed"]

  /** A marker map, one item per key, in the order of `keys`. */
  function ItemsOf(m: Markers, keys: seq<string>): (items: seq<Item>)
    ensures forall i | i in items :: i.Mark? && i.key in m && i.value == m[i.key]
  {
    if keys == [] then []
    else
      var n := |keys| - 1;
      ItemsOf(m, keys[..n]) + if keys[n] in m then [Mark(keys[n], m[keys[n]])] else []
  }

  lemma {:induction false} MarksOfMap(m: Markers, keys: seq<string>)
    ensures forall k :: k in MarksOf(ItemsOf(m, keys)) <==> k in m && k in keys
    ensures forall k | k in MarksOf(ItemsOf(m, keys)) :: MarksOf(ItemsOf(m, keys))[k] == m[k]
    ensures HumansOf(ItemsOf(m, keys)) == []
  {
    hide MarksOf, HumansOf;
    if keys == [] {
      NothingPrinted();
      MarksOfNothing();
    } else {
      var n := |keys| - 1;
      var items := ItemsOf(m, keys[..n]);
      MarksOfMap(m, keys[..n]);
      assert keys == keys[..n] + [keys[n]];
      if keys[n] in m {
        ItemsSnoc(items, Mark(keys[n], m[keys[n]]));
      } else {
        assert items + [] == items;
      }
    }
  }

  lemma MarksOfNothing()
    ensures MarksOf([]) == map[] && HumansOf([]) == []
  {
  }

  function AsHumans(lines: seq<string>): seq<Item> {
    if lines == [] then [] else AsHumans(lines[..|lines| - 1]) + [Human(lines[|lines| - 1])]
  }

  lemma {:induction false} MarksOfAppendHumans(items: seq<Item>, lines: seq<string>)
    ensures MarksOf(items + AsHumans(lines)) == MarksOf(items)
    ensures HumansOf(items + AsHumans(lines)) == HumansOf(items) + lines
  {
    hide MarksOf, HumansOf;
    if lines == [] {
      assert items + [] == items;
    } else {
      var n := |lines| - 1;
      var before := items + AsHumans(lines[..n]);
      MarksOfAppendHumans(items, lines[..n]);
      ItemsSnoc(before, Human(lines[n]));
      Assoc(items, AsHumans(lines[..n]), [Human(lines[n])]);
      assert lines == lines[..n] + [lines[n]];
    }
  }

  lemma {:induction false} HumansPrintable(lines: seq<string>)
    requires forall l | l in lines :: HumanLine(l)
    ensures forall i | i in AsHumans(lines) :: Printable(i)
  {
    hide HumanLine, Fits, PartFits, Unprefixed;
    if lines != [] {
      HumansPrintable(lines[..|lines| - 1]);
    }
  }

  /** In particular every marker map whose values fit, printed one per line before its human lines, comes back whole. */
  lemma MapRoundTrip(m: Markers, lines: seq<string>)
    requires forall k | k in m :: k in KEYS && Fits(k, m[k])
    requires forall l | l in lines :: HumanLine(l)
    ensures var items := ItemsOf(m, KEYS) + AsHumans(lines);
            && (forall i | i in items :: Printable(i))
            && ParseSpec(Some(Blob(items))) ==
               (m, if JoinWith(lines, '\n') == "" then None else Some(JoinWith(lines, '\n')))
  {
    hide Fits, HumanLine, PartFits, Unprefixed, ParseSpec, JoinWith, ItemsOf, AsHumans, MarksOf, HumansOf;
    MarksOfMap(m, KEYS);
    HumansPrintable(lines);
    MarksOfAppendHumans(ItemsOf(m, KEYS), lines);
    assert MarksOf(ItemsOf(m, KEYS)) == m;
    assert [] + lines == lines;
    RoundTrip(ItemsOf(m, KEYS) + AsHumans(lines));
  }
}
