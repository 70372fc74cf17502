/** The announcement form (src/pages/CreateAlert/CreateAlert.tsx): the
    fixed colour policy, the per-line preview markup, the editable list of
    sections and the submit step. */
module CreateAlert {
  import opened Common
  import opened Text
  import opened Markup
  import opened AlertService

  // The fixed palette of the form.

  const WarningBg := "#fff3e0"
  const ProcedureBg := "#e8f5e9"
  const UrgentBg := "#ffebee"
  const RedText := "#d32f2f"
  const GreenText := "#2e7d32"
  const YellowText := "#f57c00"
  const GrayText := "#616161"
  const BlackText := "#000000"
  const WhiteBg := "#FFFFFF"

  /** One entry of the form's section-type table. */
  datatype SectionType = SectionType(id: string, typeLabel: string, icon: string, defaultTitle: string)

  const SectionTypes := [
    SectionType("warning", "Aviso", "⚠️", "Aviso Importante"),
    SectionType("procedure", "Procedimento", "📋", "Procedimento Correto"),
    SectionType("urgent", "Urgente", "🚨", "Atenção Urgente"),
    SectionType("note", "Observação", "💡", "Observações")
  ]

  /** `Array.prototype.find` on the type table: the first entry with that id. */
  function FindType(table: seq<SectionType>, id: string): (r: Option<SectionType>)
    ensures r.Some? ==> r.value in table && r.value.id == id
    ensures r.None? ==> forall k :: 0 <= k < |table| ==> table[k].id != id
    decreases |table|
  {
    if table == [] then None
    else if table[0].id == id then Some(table[0])
    else FindType(table[1..], id)
  }

  /** No two entries of the table share an id. */
  predicate DistinctIds(table: seq<SectionType>)
  {
    forall i, j :: 0 <= i < j < |table| ==> table[i].id != table[j].id
  }

  /** The form's table names each type once. */
  lemma SectionTypeIdsDistinct()
    ensures DistinctIds(SectionTypes)
  {
    assert forall i :: 0 <= i < |SectionTypes| ==> SectionTypes[i].id != [];
    assert SectionTypes[0].id[0] == 'w' && SectionTypes[1].id[0] == 'p';
    assert SectionTypes[2].id[0] == 'u' && SectionTypes[3].id[0] == 'n';
  }

  /** In a table without repeated ids, `find` returns the one entry with
      the id it is given. */
  lemma {:induction false} FindTypeDistinct(table: seq<SectionType>, id: string)
    requires DistinctIds(table)
    ensures forall k :: 0 <= k < |table| && table[k].id == id ==> FindType(table, id) == Some(table[k])
    decreases |table|
  {
    if table != [] {
      assert DistinctIds(table[1..]) by {
        forall i, j | 0 <= i < j < |table[1..]| ensures table[1..][i].id != table[1..][j].id {
          assert table[1..][i] == table[i + 1] && table[1..][j] == table[j + 1];
        }
      }
      FindTypeDistinct(table[1..], id);
      forall k | 0 <= k < |table| && table[k].id == id ensures FindType(table, id) == Some(table[k]) {
        if k > 0 {
          assert table[k] == table[1..][k - 1];
        }
      }
    }
  }

  /** `getFixedBackgroundColor`: total, white for every type it does not name. */
  function FixedBackground(sectionType: string): (r: string)
    ensures sectionType !in ["warning", "procedure", "urgent"] ==> r == WhiteBg
    ensures r == WarningBg <==> sectionType == "warning"
    ensures r == ProcedureBg <==> sectionType == "procedure"
    ensures r == UrgentBg <==> sectionType == "urgent"
  {
    match sectionType
    case "warning" => WarningBg
    case "procedure" => ProcedureBg
    case "urgent" => UrgentBg
    case "note" => WhiteBg
    case _ => WhiteBg
  }

  /** `getFixedTextColor`: black except for urgent (red) and note (gray). */
  function FixedText(sectionType: string): (r: string)
    ensures r != BlackText <==> sectionType in ["urgent", "note"]
    ensures r in [RedText, GrayText, BlackText]
    ensures sectionType == "urgent" ==> r == RedText
    ensures sectionType == "note" ==> r == GrayText
  {
    match sectionType
    case "urgent" => RedText
    case "note" => GrayText
    case _ => BlackText
  }

  /** A section whose colours follow the policy for its type. */
  predicate ColoursFixed(s: Section)
  {
    s.backgroundColor == FixedBackground(s.sectionType) && s.textColor == FixedText(s.sectionType)
  }

  /** The spread in `handleSectionChange`: the editor's section with the
      colours forced to the policy and a black bullet. */
  function WithFixedColours(updated: Section): (r: Section)
    ensures ColoursFixed(r) && r.bulletColor == Some(BlackText)
    ensures r.id == updated.id && r.sectionType == updated.sectionType && r.title == updated.title
    ensures r.content == updated.content && r.icon == updated.icon
  {
    updated.(backgroundColor := FixedBackground(updated.sectionType),
             textColor := FixedText(updated.sectionType),
             bulletColor := Some(BlackText))
  }

  /** The section `handleAddSection` appends; `id` stands for
      `Date.now().toString()`. */
  function NewSection(sectionType: string, id: string): (r: Section)
    ensures r.id == id && r.sectionType == sectionType && r.content == []
    ensures ColoursFixed(r) && r.bulletColor == Some(BlackText)
    ensures forall k :: 0 <= k < |SectionTypes| && SectionTypes[k].id == sectionType ==>
              r.title == SectionTypes[k].defaultTitle && r.icon == Some(SectionTypes[k].icon)
    ensures (forall k :: 0 <= k < |SectionTypes| ==> SectionTypes[k].id != sectionType) ==>
              r.title == "Nova Seção" && r.icon == Some("📝")
  {
    SectionTypeIdsDistinct();
    FindTypeDistinct(SectionTypes, sectionType);
    var config := FindType(SectionTypes, sectionType);
    var title := if config.Some? then OrElse(Some(config.value.defaultTitle), "Nova Seção") else "Nova Seção";
    var icon := if config.Some? then OrElse(Some(config.value.icon), "📝") else "📝";
    Section(id, sectionType, title, "", FixedBackground(sectionType), FixedText(sectionType),
            Some(icon), Some(BlackText))
  }

  /** The `filter((_, i) => i !== index)` of `handleRemoveSection`. */
  function RemoveAt(s: seq<Section>, index: int): (r: seq<Section>)
    ensures 0 <= index < |s| ==> |r| == |s| - 1
    ensures 0 <= index < |s| ==> forall k :: 0 <= k < |r| ==> r[k] == (if k < index then s[k] else s[k + 1])
    ensures !(0 <= index < |s|) ==> r == s
  {
    if 0 <= index < |s| then s[..index] + s[index + 1..] else s
  }

  /** Removing an element keeps every other element, in order. */
  lemma {:induction false} RemoveAtSubsequence(s: seq<Section>, index: int)
    ensures IsSubsequence(RemoveAt(s, index), s)
  {
    if 0 <= index < |s| {
      PrefixSkip(s, index);
    } else {
      SubsequenceRefl(s);
    }
  }

  /** Dropping position `index` leaves a subsequence. */
  lemma {:induction false} PrefixSkip(s: seq<Section>, index: nat)
    requires index < |s|
    ensures IsSubsequence(s[..index] + s[index + 1..], s)
    decreases index
  {
    if index == 0 {
      assert s[..0] + s[1..] == s[1..];
      SubsequenceRefl(s[1..]);
      SubsequenceSkip(s[1..], s);
    } else {
      PrefixSkip(s[1..], index - 1);
      assert s[1..][..index - 1] + s[1..][index..] == (s[..index] + s[index + 1..])[1..];
      assert (s[..index] + s[index + 1..])[0] == s[0];
    }
  }

  lemma {:induction false} SubsequenceRefl<T>(s: seq<T>)
    ensures IsSubsequence(s, s)
    decreases |s|
  {
    if s != [] {
      SubsequenceRefl(s[1..]);
    }
  }

  // The preview markup of `parseContent`.

  /** The pieces of the coloured spans; the colour is spliced in between. */
  const SpanOpen := "<span style=\"color: "
  const SpanWeight := "; font-weight: 500;\">"
  const SpanClose := "</span>"

  /** The colour tags, each wrapping its run in a coloured span. */
  const Red := Rule("[vermelho]", "[/vermelho]", SpanOpen + RedText + SpanWeight, SpanClose)
  const Green := Rule("[verde]", "[/verde]", SpanOpen + GreenText + SpanWeight, SpanClose)
  const Yellow := Rule("[amarelo]", "[/amarelo]", SpanOpen + YellowText + SpanWeight, SpanClose)
  const Gray := Rule("[cinza]", "[/cinza]", SpanOpen + GrayText + "\">", SpanClose)

  /** The eight `.replace` calls of one line, in source order. */
  const LineRules := [Red, Green, Yellow, Gray, Strong, Emphasis, Strike, Code]

  /** No markup and no line break anywhere in `s`: none of the characters
      that start a rewrite, and none that a regular-expression `.` refuses. */
  predicate Plain(s: string)
  {
    MarkupFree(s) && BreakFree(s)
  }

  predicate MarkupFree(s: string)
  {
    '[' !in s && '*' !in s && '~' !in s && '`' !in s
  }

  predicate BreakFree(s: string)
  {
    '\n' !in s && '\r' !in s && '\U{2028}' !in s && '\U{2029}' !in s
  }

  /** Markup-free text has no line terminator at any position. */
  lemma PlainNoBreaks(s: string)
    requires Plain(s)
    ensures forall m :: 0 <= m < |s| ==> !IsLineTerminator(s[m]) && s[m] != '*' && s[m] != '['
  {
    forall m | 0 <= m < |s| ensures !IsLineTerminator(s[m]) && s[m] != '*' && s[m] != '[' {
      assert s[m] in s;
    }
  }

  /** The markup of one trimmed line. */
  function ParseLine(line: string): (r: string)
    ensures line != [] ==> r != []
  {
    LineRulesValid();
    ApplyRules(line, LineRules)
  }

  /** Every rule of the line is a valid rewrite. */
  lemma LineRulesValid()
    ensures forall k :: 0 <= k < |LineRules| ==> LineRules[k].Valid()
  {
    ColourRulesValid();
    InlineRulesValid();
    EightRules(Red, Green, Yellow, Gray, Strong, Emphasis, Strike, Code, (r: Rule) => r.Valid());
  }

  lemma ColourRulesValid() ensures Red.Valid() && Green.Valid() && Yellow.Valid() && Gray.Valid() { }
  lemma InlineRulesValid() ensures Strong.Valid() && Emphasis.Valid() && Strike.Valid() && Code.Valid() { }

  /** Sequence bookkeeping: a property of eight rules is a property of
      every element of their list. */
  lemma EightRules(a: Rule, b: Rule, c: Rule, d: Rule, e: Rule, f: Rule, g: Rule, h: Rule, p: Rule -> bool)
    requires p(a) && p(b) && p(c) && p(d) && p(e) && p(f) && p(g) && p(h)
    ensures forall k :: 0 <= k < |[a, b, c, d, e, f, g, h]| ==> p([a, b, c, d, e, f, g, h][k])
  {
    var rules := [a, b, c, d, e, f, g, h];
    forall k | 0 <= k < |rules| ensures p(rules[k]) {
      assert k in {0, 1, 2, 3, 4, 5, 6, 7};
    }
  }

  predicate NonEmpty(line: string)
  {
    line != []
  }

  predicate NotBlank(line: string)
  {
    !AllWhitespace(line)
  }

  /** `parseContent`: split at `\n`, trim, drop empty lines, mark up each.
      There are never more outputs than lines, and no output is empty. */
  function ParseContent(content: string): (r: seq<string>)
    ensures |r| <= Count(content, '\n') + 1
    ensures forall k :: 0 <= k < |r| ==> r[k] != []
  {
    var kept := Filter(Map(Split(content, '\n'), Trim), NonEmpty);
    NonEmptyLines(kept);
    Map(kept, ParseLine)
  }

  /** Trimming and then dropping empty lines is dropping the blank lines and
      then trimming. */
  lemma {:induction false} TrimThenFilter(lines: seq<string>)
    ensures Filter(Map(lines, Trim), NonEmpty) == Map(Filter(lines, NotBlank), Trim)
    decreases |lines|
  {
    if lines != [] {
      TrimThenFilter(lines[1..]);
      TrimEmptyIffBlank(lines[0]);
      assert Map(lines, Trim)[1..] == Map(lines[1..], Trim);
    }
  }

  /** One output per non-blank input line, in order, each the markup of the
      trimmed line. */
  lemma ParseContentLines(content: string)
    ensures ParseContent(content) == Map(Map(Filter(Split(content, '\n'), NotBlank), Trim), ParseLine)
  {
    TrimThenFilter(Split(content, '\n'));
  }

  /** Marking up non-empty lines gives non-empty lines. */
  lemma NonEmptyLines(kept: seq<string>)
    requires forall k :: 0 <= k < |kept| ==> NonEmpty(kept[k])
    ensures forall k :: 0 <= k < |kept| ==> Map(kept, ParseLine)[k] != []
  {
    forall k | 0 <= k < |kept| ensures Map(kept, ParseLine)[k] != [] {
      assert kept[k] != [];
      assert Map(kept, ParseLine)[k] == ParseLine(kept[k]);
    }
  }

  /** `o` starts at no position of `s`. */
  predicate OpensNowhere(s: string, o: string)
  {
    forall i :: 0 <= i < |s| ==> !(o <= s[i..])
  }

  /** A line without `*`, `~` or backtick in which none of the four colour
      openers occurs comes back as it was; a `[` that opens no colour tag,
      as in `ver [1]`, is kept. */
  lemma PlainLineUnchanged(line: string)
    requires '*' !in line && '~' !in line && '`' !in line
    requires OpensNowhere(line, Red.open) && OpensNowhere(line, Green.open)
    requires OpensNowhere(line, Yellow.open) && OpensNowhere(line, Gray.open)
    ensures ParseLine(line) == line
  {
    ColourRulesValid();
    InlineRulesValid();
    NoOpenerUnchanged(line, Red);
    NoOpenerUnchanged(line, Green);
    NoOpenerUnchanged(line, Yellow);
    NoOpenerUnchanged(line, Gray);
    NoMarkerUnchanged(line, Strong);
    NoMarkerUnchanged(line, Emphasis);
    NoMarkerUnchanged(line, Strike);
    NoMarkerUnchanged(line, Code);
    EightRules(Red, Green, Yellow, Gray, Strong, Emphasis, Strike, Code,
               (r: Rule) => r.Valid() && ReplaceAll(line, r) == line);
    ApplyRulesFixpoint(line, LineRules);
  }

  /** A bracket that opens no colour tag is kept as typed. */
  lemma BracketKept()
    ensures ParseLine("ver [1]") == "ver [1]"
  {
    var s := "ver [1]";
    RedOpenParts();
    ColourOpenParts();
    forall i | 0 <= i < |s|
      ensures !(Red.open <= s[i..]) && !(Green.open <= s[i..])
      ensures !(Yellow.open <= s[i..]) && !(Gray.open <= s[i..])
    {
      if i != 4 {
        assert s[i..][0] == s[i];
      }
    }
    PlainLineUnchanged(s);
  }

  /** Text without `[` holds none of the colour openers. */
  lemma NoBracketNoColour(s: string)
    requires '[' !in s
    ensures OpensNowhere(s, Red.open) && OpensNowhere(s, Green.open)
    ensures OpensNowhere(s, Yellow.open) && OpensNowhere(s, Gray.open)
  {
    RedOpenParts();
    ColourOpenParts();
    MarkerOpensNowhere(s, Red.open);
    MarkerOpensNowhere(s, Green.open);
    MarkerOpensNowhere(s, Yellow.open);
    MarkerOpensNowhere(s, Gray.open);
  }

  /** A word whose first character is absent from `s` starts nowhere in it. */
  lemma MarkerOpensNowhere(s: string, o: string)
    requires o != [] && o[0] !in s
    ensures OpensNowhere(s, o)
  {
    forall i | 0 <= i < |s| ensures !(o <= s[i..]) {
      assert s[i..][0] == s[i];
    }
  }

  /** A content holding one plain line that needs no trimming previews as
      exactly that line. */
  lemma PlainContentUnchanged(line: string)
    requires line != [] && Plain(line)
    requires !IsWhitespace(line[0]) && !IsWhitespace(line[|line| - 1])
    ensures ParseContent(line) == [line]
  {
    SplitJoin([line], '\n');
    assert Join([line], '\n') == line;
    TrimTight(line);
    NoBracketNoColour(line);
    PlainLineUnchanged(line);
  }

  /** Every rule of the line is valid and starts with a markup character. */
  lemma OpenerMarkers()
    ensures forall k :: 0 <= k < |LineRules| ==> LineRules[k].Valid() && LineRules[k].open[0] in "[*~`"
  {
    forall k | 0 <= k < |LineRules| ensures LineRules[k].Valid() && LineRules[k].open[0] in "[*~`" {
      assert k in {0, 1, 2, 3, 4, 5, 6, 7};
    }
  }

  /** Markup-free text contains no rewrite's first character. */
  lemma PlainAvoidsOpeners(s: string)
    requires MarkupFree(s)
    ensures forall k :: 0 <= k < |LineRules| ==> LineRules[k].Valid() && LineRules[k].open[0] !in s
  {
    OpenerMarkers();
  }

  lemma PlainConcat(a: string, b: string)
    requires Plain(a) && Plain(b)
    ensures Plain(a + b)
  {
  }

  lemma SpanOpenPlain() ensures Plain(SpanOpen) { SpanOpenMarkupFree(); SpanOpenBreakFree(); }
  lemma SpanOpenMarkupFree() ensures MarkupFree(SpanOpen) { }
  lemma SpanOpenBreakFree() ensures BreakFree(SpanOpen) { }
  lemma SpanWeightPlain() ensures Plain(SpanWeight) { SpanWeightMarkupFree(); SpanWeightBreakFree(); }
  lemma SpanWeightMarkupFree() ensures MarkupFree(SpanWeight) { }
  lemma SpanWeightBreakFree() ensures BreakFree(SpanWeight) { }
  lemma RedTextPlain() ensures Plain(RedText) { }
  lemma SpanClosePlain() ensures Plain(SpanClose) { }

  /** The red span carries no markup. */
  lemma RedTagsPlain()
    ensures Plain(Red.before) && Plain(Red.after)
  {
    SpanOpenPlain();
    RedTextPlain();
    SpanWeightPlain();
    SpanClosePlain();
    PlainConcat(SpanOpen, RedText);
    PlainConcat(SpanOpen + RedText, SpanWeight);
  }

  /** The bold tags carry no markup. */
  lemma StrongTagsPlain()
    ensures Plain(Strong.before) && Plain(Strong.after)
  {
    StrongOpenPlain();
    StrongClosePlain();
  }

  lemma StrongOpenPlain() ensures Plain("<strong>") { }
  lemma StrongClosePlain() ensures Plain("</strong>") { }

  /** The first rule applied, and then the rest of the chain. */
  lemma ParseLineStep(line: string)
    ensures ParseLine(line) == ApplyRules(ReplaceAll(line, Red), LineRules[1..])
  {
  }

  /** Bold is rewritten before italics: `**x**` becomes one bold run, not an
      italic run inside stars. */
  lemma ParseLineBold(x: string)
    requires Plain(x)
    ensures ParseLine("**" + x + "**") == "<strong>" + x + "</strong>"
  {
    var s := "**" + x + "**";
    assert '[' !in s;
    var colours := [Red, Green, Yellow, Gray];
    ApplyRulesUnchanged(s, colours);
    assert LineRules == colours + [Strong, Emphasis, Strike, Code];
    ApplyRulesConcat(s, colours, [Strong, Emphasis, Strike, Code]);
    ParseLineBoldTail(x);
  }

  /** The last four rewrites of `ParseLineBold`. */
  lemma ParseLineBoldTail(x: string)
    requires Plain(x)
    ensures ApplyRules("**" + x + "**", [Strong, Emphasis, Strike, Code]) == "<strong>" + x + "</strong>"
  {
    var bold := "<strong>" + x + "</strong>";
    PlainNoBreaks(x);
    BoldPass(x);
    StrongTagsPlain();
    assert Plain(bold);
    PlainAvoidsOpeners(bold);
    assert [Strong, Emphasis, Strike, Code][1..] == LineRules[5..];
    ApplyRulesUnchanged(bold, LineRules[5..]);
  }

  /** Applying a chain in two parts is applying it at once. */
  lemma {:induction false} ApplyRulesConcat(s: string, first: seq<Rule>, second: seq<Rule>)
    requires forall k :: 0 <= k < |first| ==> first[k].Valid()
    requires forall k :: 0 <= k < |second| ==> second[k].Valid()
    ensures ApplyRules(s, first + second) == ApplyRules(ApplyRules(s, first), second)
    decreases |first|
  {
    if first != [] {
      assert (first + second)[1..] == first[1..] + second;
      ApplyRulesConcat(ReplaceAll(s, first[0]), first[1..], second);
    } else {
      assert first + second == second;
    }
  }

  /** Colour tags are matched shortest-first: two red runs on one line give
      two red spans, with the text between them left outside. */
  lemma ParseLineTwoReds(x: string, y: string, z: string)
    requires Plain(x) && Plain(y) && Plain(z)
    ensures ParseLine(Red.open + x + Red.close + y + Red.open + z + Red.close)
         == Red.before + x + Red.after + y + Red.before + z + Red.after
  {
    var s := Red.open + x + Red.close + y + Red.open + z + Red.close;
    var r := Red.before + x + Red.after + y + Red.before + z + Red.after;
    PlainNoBreaks(x);
    PlainNoBreaks(z);
    assert Red.close[0] == '[' && Red.open[0] == '[';
    TwoRuns(x, y, z, Red);
    ParseLineStep(s);
    TwoRedsRest(x, y, z);
  }

  /** The rules after the red one find nothing in two red spans. */
  lemma TwoRedsRest(x: string, y: string, z: string)
    requires Plain(x) && Plain(y) && Plain(z)
    ensures var r := Red.before + x + Red.after + y + Red.before + z + Red.after;
            ApplyRules(r, LineRules[1..]) == r
  {
    var r := Red.before + x + Red.after + y + Red.before + z + Red.after;
    RedTagsPlain();
    assert Plain(r);
    PlainAvoidsOpeners(r);
    ApplyRulesUnchanged(r, LineRules[1..]);
  }

  /** A rule that cannot match at the first character, whose opener's first
      character occurs nowhere else, leaves the text as it was. */
  lemma LoneMarkerUnchanged(s: string, rule: Rule)
    requires rule.Valid() && s != []
    requires !(rule.open <= s) && rule.open[0] !in s[1..]
    ensures ReplaceAll(s, rule) == s
  {
    NoMatchStep(s, rule);
    NoMarkerUnchanged(s[1..], rule);
    assert [s[0]] + s[1..] == s;
  }

  /** Two words that differ at position `i` cannot both start `s`. */
  lemma DifferAt(p: string, q: string, s: string, i: nat)
    requires p <= s && i < |p| && i < |q| && p[i] != q[i]
    ensures !(q <= s)
  {
  }

  /** The red opener, taken apart. */
  lemma RedOpenParts()
    ensures Red.open == ['['] + RedWord && Red.close[0] == '['
    ensures Red.open[4] == 'm' && Red.open[1] == 'v'
  {
  }

  /** What follows the `[` of the red opener. */
  const RedWord := "vermelho]"

  lemma RedWordPlain() ensures Plain(RedWord) { }

  /** The other colour openers start with `[` too, but differ from the red
      one early on. */
  lemma ColourOpenParts()
    ensures Green.open[0] == '[' && Yellow.open[0] == '[' && Gray.open[0] == '['
    ensures Green.open[4] == 'd' && Yellow.open[1] == 'a' && Gray.open[1] == 'c'
  {
  }

  /** Sequence bookkeeping: a word after a character it does not contain. */
  lemma ConsTail(c: char, w: string, y: string)
    requires c !in w
    ensures [c] + w <= ([c] + w) + y && (([c] + w) + y)[1..] == w + y
    ensures ([c] + w)[0] == c && c !in ([c] + w)[1..]
  {
    assert ([c] + w)[1..] == w;
  }

  /** A red opener without a closer stays verbatim. */
  lemma ParseLineUnclosedRed(y: string)
    requires Plain(y)
    ensures ParseLine(Red.open + y) == Red.open + y
  {
    var s := Red.open + y;
    UnclosedRedTail(y);
    CloserAbsent(y, Red);
    UnmatchedOpener(y, Red);
    UnclosedRedRest(s);
    ApplyRulesFixpoint(s, LineRules);
  }

  /** After its `[`, an unclosed red opener has no markup. */
  lemma UnclosedRedTail(y: string)
    requires Plain(y)
    ensures Red.open <= Red.open + y && Plain((Red.open + y)[1..])
    ensures Red.open[0] !in Red.open[1..] && Red.open[0] == '[' && Red.close[0] == '['
  {
    RedOpenParts();
    RedWordPlain();
    ConsTail('[', RedWord, y);
    PlainConcat(RedWord, y);
  }

  /** The rules after the red one leave an unclosed red opener alone too. */
  lemma UnclosedRedRest(s: string)
    requires Red.open <= s && Plain(s[1..]) && ReplaceAll(s, Red) == s
    ensures forall k :: 0 <= k < |LineRules| ==> LineRules[k].Valid() && ReplaceAll(s, LineRules[k]) == s
  {
    ColourRulesValid();
    InlineRulesValid();
    UnclosedRedColours(s);
    UnclosedRedInline(s);
    EightRules(Red, Green, Yellow, Gray, Strong, Emphasis, Strike, Code, (r: Rule) => r.Valid() && ReplaceAll(s, r) == s);
  }

  /** The other colour rules cannot start where the red opener does, and
      their `[` occurs nowhere else. */
  lemma UnclosedRedColours(s: string)
    requires Red.open <= s && Plain(s[1..])
    ensures ReplaceAll(s, Green) == s && ReplaceAll(s, Yellow) == s && ReplaceAll(s, Gray) == s
  {
    ColourRulesValid();
    RedOpenParts();
    ColourOpenParts();
    DifferAt(Red.open, Green.open, s, 4);
    DifferAt(Red.open, Yellow.open, s, 1);
    DifferAt(Red.open, Gray.open, s, 1);
    LoneMarkerUnchanged(s, Green);
    LoneMarkerUnchanged(s, Yellow);
    LoneMarkerUnchanged(s, Gray);
  }

  /** The inline rules find no marker after the leading `[`. */
  lemma UnclosedRedInline(s: string)
    requires s != [] && s[0] == '[' && Plain(s[1..])
    ensures ReplaceAll(s, Strong) == s && ReplaceAll(s, Emphasis) == s
    ensures ReplaceAll(s, Strike) == s && ReplaceAll(s, Code) == s
  {
    InlineRulesValid();
    assert s == [s[0]] + s[1..];
    NoMarkerUnchanged(s, Strong);
    NoMarkerUnchanged(s, Emphasis);
    NoMarkerUnchanged(s, Strike);
    NoMarkerUnchanged(s, Code);
  }

  /** A chain of rewrites each of which leaves `s` alone leaves it alone. */
  lemma {:induction false} ApplyRulesFixpoint(s: string, rules: seq<Rule>)
    requires forall k :: 0 <= k < |rules| ==> rules[k].Valid() && ReplaceAll(s, rules[k]) == s
    ensures ApplyRules(s, rules) == s
    decreases |rules|
  {
    if rules != [] {
      ApplyRulesFixpoint(s, rules[1..]);
    }
  }

  // The form's own state.

  /** What the form shows once submitting failed. */
  const PermissionDeniedMessage := "❌ Permissão negada. Verifique as regras do Firestore."
  const LoginRequiredMessage := "❌ Você precisa estar logado para criar alertas."
  const CreatedMessage := "✅ Alerta criado com sucesso!"
  const NotAuthenticated := "não autenticado"
  const NotSignedInError := "Usuário " + NotAuthenticated + ". Faça login novamente."
  const DefaultGratitude := "Obrigado pela atenção e colaboração de todos."

  /** An error thrown while submitting: an optional code and a message. */
  datatype Failure = Failure(code: Option<string>, message: string)

  /** The catch block of `handleSubmit`. */
  function ErrorText(f: Failure): (r: string)
    ensures f.code == Some("permission-denied") ==> r == PermissionDeniedMessage
    ensures f.code != Some("permission-denied") && Includes(f.message, NotAuthenticated) ==> r == LoginRequiredMessage
    ensures f.code != Some("permission-denied") && !Includes(f.message, NotAuthenticated) ==>
              r == "❌ Erro ao criar alerta: " + f.message
  {
    if f.code == Some("permission-denied") then PermissionDeniedMessage
    else if Includes(f.message, NotAuthenticated) then LoginRequiredMessage
    else "❌ Erro ao criar alerta: " + f.message
  }

  /** Submitting while signed out asks the user to log in. */
  lemma SignedOutMessage()
    ensures ErrorText(Failure(None, NotSignedInError)) == LoginRequiredMessage
  {
    var head := "Usuário ";
    IncludesAt(NotSignedInError, NotAuthenticated);
    assert NotSignedInError[|head|..] == NotAuthenticated + ". Faça login novamente.";
  }

  /** The submit button is disabled while submitting, when the main title is
      blank, or when every section's content is blank. */
  predicate SubmitDisabled(isSubmitting: bool, mainTitle: string, sections: seq<Section>)
  {
    isSubmitting || Trim(mainTitle) == [] || forall k :: 0 <= k < |sections| ==> Trim(sections[k].content) == []
  }

  /** Cancelling asks for confirmation when there is a title or some content. */
  predicate CancelNeedsConfirm(mainTitle: string, sections: seq<Section>)
  {
    Trim(mainTitle) != [] || exists k :: 0 <= k < |sections| && Trim(sections[k].content) != []
  }

  /** The button is enabled exactly when not submitting, the title has a
      non-whitespace character and some section has one too. */
  lemma SubmitEnabledIff(isSubmitting: bool, mainTitle: string, sections: seq<Section>)
    ensures !SubmitDisabled(isSubmitting, mainTitle, sections)
        <==> && !isSubmitting && !AllWhitespace(mainTitle)
             && exists k :: 0 <= k < |sections| && !AllWhitespace(sections[k].content)
  {
    TrimEmptyIffBlank(mainTitle);
    forall k | 0 <= k < |sections| ensures Trim(sections[k].content) == [] <==> AllWhitespace(sections[k].content) {
      TrimEmptyIffBlank(sections[k].content);
    }
  }

  /** Whenever the form could be submitted, cancelling it needs confirmation. */
  lemma EnabledSubmitNeedsConfirm(isSubmitting: bool, mainTitle: string, sections: seq<Section>)
    requires !SubmitDisabled(isSubmitting, mainTitle, sections)
    ensures CancelNeedsConfirm(mainTitle, sections)
  {
  }

  /** The two sections the form starts with. */
  const InitialSections := [
    Section("1", "warning", "Aviso Importante",
            "Este é um aviso importante sobre o procedimento.\n**Atenção**: Use equipamentos de segurança.",
            WarningBg, BlackText, Some("⚠️"), None),
    Section("2", "procedure", "Procedimento Correto",
            "1. Verifique todos os equipamentos\n2. Use os EPIs necessários\n3. Siga as instruções passo a passo\n4. Reporte qualquer anomalia",
            ProcedureBg, BlackText, Some("📋"), Some(BlackText))
  ]

  /** The form's state. */
  class AlertForm {
    var sections: seq<Section>
    var mainTitle: string
    var urgency: string
    var expirationDate: string
    var isActive: bool
    var gratitudeMessage: string
    var isSubmitting: bool
    var successMessage: string
    var errorMessage: string

    /** The list is never empty and every section follows the colour policy. */
    ghost predicate Valid()
      reads this
    {
      |sections| >= 1 && forall k :: 0 <= k < |sections| ==> ColoursFixed(sections[k])
    }

    constructor ()
      ensures Valid()
      ensures sections == InitialSections && mainTitle == [] && urgency == "medium"
      ensures expirationDate == [] && isActive && gratitudeMessage == DefaultGratitude
      ensures !isSubmitting && successMessage == [] && errorMessage == []
    {
      sections := InitialSections;
      mainTitle := "";
      urgency := "medium";
      expirationDate := "";
      isActive := true;
      gratitudeMessage := DefaultGratitude;
      isSubmitting := false;
      successMessage := "";
      errorMessage := "";
    }

    /** `handleSectionChange`: copy the list, overwrite one slot with the
        edited section under the fixed colours, store the copy. */
    method SectionChange(index: nat, updated: Section)
      requires Valid() && index < |sections|
      modifies this`sections
      ensures Valid()
      ensures |sections| == |old(sections)|
      ensures sections[index] == WithFixedColours(updated)
      ensures forall k :: 0 <= k < |sections| && k != index ==> sections[k] == old(sections)[k]
    {
      var copy := new Section[|sections|](k requires 0 <= k < |sections| reads this => sections[k]);
      copy[index] := WithFixedColours(updated);
      sections := copy[..];
    }

    /** `handleAddSection`: one new section at the end. */
    method AddSection(sectionType: string, id: string)
      requires Valid()
      modifies this`sections
      ensures Valid()
      ensures sections == old(sections) + [NewSection(sectionType, id)]
    {
      sections := sections + [NewSection(sectionType, id)];
    }

    /** `handleRemoveSection`: drops position `index` unless it is the only
        section. */
    method RemoveSection(index: int)
      requires Valid()
      modifies this`sections
      ensures Valid()
      ensures |old(sections)| > 1 ==> sections == RemoveAt(old(sections), index)
      ensures |old(sections)| <= 1 ==> sections == old(sections)
    {
      if |sections| > 1 {
        sections := RemoveAt(sections, index);
      }
    }

    /** The record `handleSubmit` sends: the form fields, with an empty date
        sent as null. */
    function Input(): (r: AlertInput)
      reads this
      ensures r.sections == sections && r.mainTitle == mainTitle && r.urgency == urgency
      ensures r.isActive == isActive && r.gratitudeMessage == gratitudeMessage
      ensures r.expirationDate.None? <==> expirationDate == []
      ensures r.expirationDate.Some? ==> r.expirationDate.value == expirationDate
    {
      AlertInput(sections, mainTitle, urgency, if expirationDate == [] then None else Some(expirationDate),
                 isActive, gratitudeMessage)
    }

    /** `handleSubmit`. `user` is the signed-in uid, if any; `failure` is
        what `createAlert` threw, if it did. Returns the record sent to the
        service, or `None` when nothing was sent. */
    method Submit(user: Option<string>, failure: Option<Failure>) returns (sent: Option<AlertInput>)
      modifies this`isSubmitting, this`successMessage, this`errorMessage
      ensures !isSubmitting
      ensures user.None? ==> sent.None? && successMessage == [] && errorMessage == LoginRequiredMessage
      ensures user.Some? ==> sent == Some(Input())
      ensures user.Some? && failure.None? ==> successMessage == CreatedMessage && errorMessage == []
      ensures user.Some? && failure.Some? ==> successMessage == [] && errorMessage == ErrorText(failure.value)
    {
      isSubmitting := true;
      successMessage := "";
      errorMessage := "";
      if user.None? {
        SignedOutMessage();
        sent := None;
        errorMessage := ErrorText(Failure(None, NotSignedInError));
      } else {
        sent := Some(Input());
        if failure.None? {
          successMessage := CreatedMessage;
        } else {
          errorMessage := ErrorText(failure.value);
        }
      }
      isSubmitting := false;
    }
  }

  /** The starting sections already follow the colour policy. */
  lemma InitialSectionsFixed()
    ensures forall k :: 0 <= k < |InitialSections| ==> ColoursFixed(InitialSections[k])
  {
  }
}
