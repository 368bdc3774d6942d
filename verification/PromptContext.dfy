/**
 Prompts assembled within a token budget (`context.py`, lines 20-189).
 */
module PromptContext {
  import opened Wrappers
  import opened Utf8

  const NOTICE := "advisory truncated by deterministic context budget"
  const MARKER := "\n" + ("...[" + NOTICE + "]")
  const HEADER := " (ADVISORY; verify against repository and immutable requirements):\n"

  /** `upper` stands for Python's `str.upper`. */
  datatype Section = Section(name: string, text: string)

  datatype Limits = Limits(window: Option<nat>, configuredOutput: Option<nat>, outputReserve: nat, inputFraction: real)

  datatype Budget = Unknown | Invalid | Bounded(tokens: nat)

  // ----- text -----

  /** What Python's `str.isspace` accepts. */
  predicate IsSpace(c: char) {
    var n := c as int;
    0x9 <= n <= 0xD || 0x1C <= n <= 0x20 || n == 0x85 || n == 0xA0 || n == 0x1680 || 0x2000 <= n <= 0x200A
    || n == 0x2028 || n == 0x2029 || n == 0x202F || n == 0x205F || n == 0x3000
  }

  /** The 29 characters that count as spaces. */
  lemma SpacesAre(c: char)
    ensures IsSpace(c) <==>
              c as int in {9, 10, 11, 12, 13, 28, 29, 30, 31, 32, 133, 160, 5760, 8192, 8193, 8194, 8195, 8196, 8197,
                           8198, 8199, 8200, 8201, 8202, 8232, 8233, 8239, 8287, 12288}
  {
  }

  function LeftStrip(text: string): string {
    if text != "" && IsSpace(text[0]) then LeftStrip(text[1..]) else text
  }

  function RightStrip(text: string): string {
    if text != "" && IsSpace(text[|text| - 1]) then RightStrip(text[..|text| - 1]) else text
  }

  function Strip(text: string): string {
    RightStrip(LeftStrip(text))
  }

  function Bytes(text: string): nat {
    |Encode(text)|
  }

  /** A third of the bytes, rounded up. */
  function EstimateTokens(text: string): nat {
    (Bytes(text) + 2) / 3
  }

  lemma EstimateIsCeiling(text: string)
    ensures 3 * EstimateTokens(text) - 2 <= Bytes(text) <= 3 * EstimateTokens(text)
    ensures EstimateTokens(text) == 0 <==> text == ""
  {
    if text != "" {
      assert Bytes(text) == |EncodeChar(text[0])| + |Encode(text[1..])|;
    }
  }

  lemma BytesConcat(a: string, b: string)
    ensures Bytes(a + b) == Bytes(a) + Bytes(b)
  {
    EncodeConcat(a, b);
  }

  lemma {:induction false} LeftStripShortens(text: string)
    ensures Bytes(LeftStrip(text)) <= Bytes(text)
  {
    if text != "" && IsSpace(text[0]) {
      LeftStripShortens(text[1..]);
    }
  }

  lemma {:induction false} RightStripIsPrefix(text: string)
    ensures RightStrip(text) <= text && Bytes(RightStrip(text)) <= Bytes(text)
  {
    if text != "" && IsSpace(text[|text| - 1]) {
      var init := text[..|text| - 1];
      RightStripIsPrefix(init);
      assert text == init + [text[|text| - 1]];
      BytesConcat(init, [text[|text| - 1]]);
    }
  }

  lemma StripShortens(text: string)
    ensures Bytes(Strip(text)) <= Bytes(text)
  {
    LeftStripShortens(text);
    RightStripIsPrefix(LeftStrip(text));
  }

  predicate Blank(text: string) {
    forall i :: 0 <= i < |text| ==> IsSpace(text[i])
  }

  lemma {:induction false} LeftStripIs(text: string) returns (front: string)
    ensures text == front + LeftStrip(text) && Blank(front)
    ensures LeftStrip(text) != "" ==> !IsSpace(LeftStrip(text)[0])
  {
    front := "";
    if text != "" && IsSpace(text[0]) {
      var more := LeftStripIs(text[1..]);
      front := [text[0]] + more;
    }
  }

  lemma {:induction false} RightStripIs(text: string) returns (back: string)
    ensures text == RightStrip(text) + back && Blank(back)
    ensures RightStrip(text) != "" ==> !IsSpace(RightStrip(text)[|RightStrip(text)| - 1])
  {
    hide IsSpace;
    back := "";
    if text != "" && IsSpace(text[|text| - 1]) {
      var init, last := text[..|text| - 1], text[|text| - 1];
      var more := RightStripIs(init);
      back := more + [last];
      assert text == init + [last] == RightStrip(init) + more + [last] == RightStrip(init) + back;
    }
  }

  /** Stripping removes spaces at both ends and nothing else, until neither end is a space. */
  lemma StripIs(text: string) returns (front: string, back: string)
    ensures text == front + Strip(text) + back && forall c :: c in front || c in back ==> IsSpace(c)
    ensures Strip(text) != "" ==> !IsSpace(Strip(text)[0]) && !IsSpace(Strip(text)[|Strip(text)| - 1])
  {
    front := LeftStripIs(text);
    back := RightStripIs(LeftStrip(text));
  }

  /** A text that neither starts nor ends with a space is left as it is. */
  lemma StripKeeps(text: string)
    requires text != "" && !IsSpace(text[0]) && !IsSpace(text[|text| - 1])
    ensures Strip(text) == text
  {
  }

  // ----- budgets -----

  /** `_input_budget`: what the window leaves after the output, capped by the configured fraction. */
  function InputBudget(limits: Limits): Budget {
    if limits.window.None? then Unknown
    else
      var reserve := OutputReserve(limits);
      var afterOutput: int := limits.window.value - reserve;
      var fractional := (limits.window.value as real * limits.inputFraction).Floor;
      var budget := if afterOutput < fractional then afterOutput else fractional;
      if budget <= 0 then Invalid else Bounded(budget)
  }

  function OutputReserve(limits: Limits): nat {
    var configured := if limits.configuredOutput.None? then 0 else limits.configuredOutput.value;
    if limits.outputReserve < configured then configured else limits.outputReserve
  }

  /** The budget is the greatest number of tokens that fits the window beside both reserves and does not pass the
      configured fraction; there is none when no positive number does. */
  lemma BudgetIsGreatest(limits: Limits, tokens: int)
    requires limits.window.Some?
    ensures var window := limits.window.value;
            && tokens >= 1
            && tokens + limits.outputReserve <= window
            && (limits.configuredOutput.Some? ==> tokens + limits.configuredOutput.value <= window)
            && tokens as real <= window as real * limits.inputFraction
            <==> InputBudget(limits).Bounded? && 1 <= tokens <= InputBudget(limits).tokens
    ensures InputBudget(limits).Bounded? ==> InputBudget(limits).tokens >= 1
    ensures InputBudget(limits) != Unknown
  {
    var share := limits.window.value as real * limits.inputFraction;
    FloorIs(share, tokens);
    assert tokens <= limits.window.value - OutputReserve(limits) <==>
           && tokens + limits.outputReserve <= limits.window.value
           && (limits.configuredOutput.Some? ==>
                 tokens + limits.configuredOutput.value <= limits.window.value);
  }

  lemma FloorIs(x: real, n: int)
    ensures n as real <= x <==> n <= x.Floor
  {
    if n <= x.Floor {
      assert n as real <= x.Floor as real;
    } else {
      assert (x.Floor + 1) as real <= n as real;
    }
  }

  // ----- sections -----

  function Block(upper: string -> string, name: string, text: string): string {
    "\n\n" + upper(name) + HEADER + Strip(text) + "\n"
  }

  /** `_truncate_utf8`: the whole characters that fit before the marker. */
  function Truncate(text: string, tokens: int): string {
    if tokens <= EstimateTokens(MARKER) then ""
    else
      var room := 3 * tokens - Bytes(MARKER);
      var raw := Encode(text);
      var cut := if room < 0 then 0 else if |raw| < room then |raw| else room;
      RightStrip(DecodeIgnore(raw[..cut])) + MARKER
  }

  /** What is truncated fits its tokens and is, before the marker, a prefix of the text: no character is
      split. */
  lemma TruncateFits(text: string, tokens: int)
    ensures tokens > EstimateTokens(MARKER) ==> Bytes(Truncate(text, tokens)) <= 3 * tokens
    ensures tokens > EstimateTokens(MARKER) ==>
              exists kept :: kept <= text && Truncate(text, tokens) == kept + MARKER
    ensures tokens > EstimateTokens(MARKER) <==> Truncate(text, tokens) != ""
  {
    hide Encode, RightStrip, DecodeIgnore;
    if tokens > EstimateTokens(MARKER) {
      EstimateIsCeiling(MARKER);
      var room := 3 * tokens - Bytes(MARKER);
      var raw := Encode(text);
      var cut := if |raw| < room then |raw| else room;
      var kept := CutKeepsWholeChars(text, cut);
      var prefix := RightStrip(text[..kept]);
      RightStripIsPrefix(text[..kept]);
      BytesConcat(prefix, MARKER);
      assert prefix <= text && Truncate(text, tokens) == prefix + MARKER;
    }
  }

  /** What becomes of an advisory section. */
  datatype Fate = Included | Truncated | Dropped

  /** The fate of a section, the text it adds and the tokens in use after it. */
  datatype Placement = Placement(fate: Fate, piece: string, used: nat)

  function Place(upper: string -> string, budget: Budget, used: nat, section: Section): Placement {
    var block := Block(upper, section.name, section.text);
    if !budget.Bounded? || used + EstimateTokens(block) <= budget.tokens then
      Placement(Included, block, used + EstimateTokens(block))
    else
      var compacted := Compacted(upper, budget.tokens - used, section);
      if compacted == "" then Placement(Dropped, "", used)
      else
        var piece := Block(upper, section.name, compacted);
        Placement(Truncated, piece, used + EstimateTokens(piece))
  }

  function Compacted(upper: string -> string, remaining: int, section: Section): string {
    Truncate(Strip(section.text), remaining - EstimateTokens(Block(upper, section.name, "")))
  }

  /** A block is its header and its stripped text. */
  lemma BlockBytes(upper: string -> string, name: string, text: string)
    ensures Bytes(Block(upper, name, text)) <= Bytes(Block(upper, name, "")) + Bytes(text)
  {
    hide Bytes, Strip;
    var front := "\n\n" + upper(name) + HEADER;
    assert Strip("") == "" by { StripNothing(); }
    assert Block(upper, name, text) == front + (Strip(text) + "\n");
    assert Block(upper, name, "") == front + "\n";
    BytesConcat(front, Strip(text) + "\n");
    BytesConcat(Strip(text), "\n");
    BytesConcat(front, "\n");
    StripShortens(text);
  }

  lemma StripNothing()
    ensures Strip("") == ""
  {
  }

  /** A compacted section always fits what remains, so checking it again never fails. */
  lemma CompactedFits(upper: string -> string, remaining: int, section: Section)
    ensures var compacted := Compacted(upper, remaining, section);
            compacted != "" ==> EstimateTokens(Block(upper, section.name, compacted)) <= remaining
  {
    hide Block, Truncate, Bytes;
    var header := Block(upper, section.name, "");
    var tokens := remaining - EstimateTokens(header);
    TruncateFits(Strip(section.text), tokens);
    var compacted := Compacted(upper, remaining, section);
    if compacted != "" {
      BlockBytes(upper, section.name, compacted);
      EstimateIsCeiling(header);
    }
  }

  /** The prompt after the first sections: text, tokens and fates. */
  datatype Draft = Draft(rendered: string, used: nat, fates: seq<Fate>)

  function Assemble(upper: string -> string, budget: Budget, core: string, sections: seq<Section>): Draft {
    if sections == [] then Draft(core, EstimateTokens(core), [])
    else
      var draft := Assemble(upper, budget, core, sections[..|sections| - 1]);
      var placed := Place(upper, budget, draft.used, sections[|sections| - 1]);
      Draft(draft.rendered + placed.piece, placed.used, draft.fates + [placed.fate])
  }

  /** The names of the sections with a given fate, in order. */
  function NamesOf(sections: seq<Section>, fates: seq<Fate>, fate: Fate): seq<string>
    requires |fates| == |sections|
  {
    if sections == [] then []
    else
      NamesOf(sections[..|sections| - 1], fates[..|fates| - 1], fate)
      + if fates[|fates| - 1] == fate then [sections[|sections| - 1].name] else []
  }

  datatype Report = Report(budget: Budget, coreTokens: nat, inputTokens: nat,
                           included: seq<string>, truncated: seq<string>, dropped: seq<string>)

  datatype Rejection = InvalidBudget | CoreExceeded

  method PreparePrompt(upper: string -> string, limits: Limits, text: string, sections: seq<Section>)
    returns (r: Result<(string, Report), Rejection>)
    ensures r == Failure(InvalidBudget) <==> InputBudget(limits) == Invalid
    ensures r == Failure(CoreExceeded) <==>
              InputBudget(limits).Bounded? && EstimateTokens(Strip(text)) > InputBudget(limits).tokens
    ensures r.Success? ==>
              var draft := Assemble(upper, InputBudget(limits), Strip(text), sections);
              var (rendered, report) := r.value;
              && |draft.fates| == |sections|
              && rendered == draft.rendered
              && report == Report(InputBudget(limits), EstimateTokens(Strip(text)), draft.used,
                                  NamesOf(sections, draft.fates, Included),
                                  NamesOf(sections, draft.fates, Truncated),
                                  NamesOf(sections, draft.fates, Dropped))
  {
    hide Strip, EstimateTokens, Place, Assemble, NamesOf;
    var core := Strip(text);
    var coreTokens := EstimateTokens(core);
    var budget := InputBudget(limits);
    if budget.Invalid? {
      return Failure(InvalidBudget);
    }
    if budget.Bounded? && coreTokens > budget.tokens {
      return Failure(CoreExceeded);
    }
    var rendered: string, used: nat := core, coreTokens;
    var included, truncated, dropped := [], [], [];
    ghost var fates := [];
    NoSections(upper, budget, core);
    for i := 0 to |sections|
      invariant |fates| == i
      invariant Draft(rendered, used, fates) == Assemble(upper, budget, core, sections[..i])
      invariant included == NamesOf(sections[..i], fates, Included)
      invariant truncated == NamesOf(sections[..i], fates, Truncated)
      invariant dropped == NamesOf(sections[..i], fates, Dropped)
    {
      var section := sections[i];
      var placed := PlaceSection(upper, budget, used, section);
      OneMoreSection(upper, budget, core, sections[..i], section, fates, placed.fate);
      assert sections[..i + 1] == sections[..i] + [section];
      fates := fates + [placed.fate];
      rendered, used := rendered + placed.piece, placed.used;
      match placed.fate
      case Included => included := included + [section.name];
      case Truncated => truncated := truncated + [section.name];
      case Dropped => dropped := dropped + [section.name];
    }
    assert sections[..|sections|] == sections;
    return Success((rendered, Report(budget, coreTokens, used, included, truncated, dropped)));
  }

  /** One turn of the loop: the whole section if it fits, else compacted and checked again, else nothing. */
  method PlaceSection(upper: string -> string, budget: Budget, used: nat, section: Section) returns (placed: Placement)
    ensures placed == Place(upper, budget, used, section)
  {
    hide Block, EstimateTokens, Truncate, Strip;
    var block := Block(upper, section.name, section.text);
    var blockTokens := EstimateTokens(block);
    if !budget.Bounded? || used + blockTokens <= budget.tokens {
      return Placement(Included, block, used + blockTokens);
    }
    var remaining := budget.tokens - used;
    var header := Block(upper, section.name, "");
    var compacted := Truncate(Strip(section.text), remaining - EstimateTokens(header));
    if compacted != "" {
      var compactedBlock := Block(upper, section.name, compacted);
      var compactedTokens := EstimateTokens(compactedBlock);
      CompactedFits(upper, remaining, section);
      if used + compactedTokens <= budget.tokens {
        return Placement(Truncated, compactedBlock, used + compactedTokens);
      }
    }
    return Placement(Dropped, "", used);
  }

  lemma NoSections(upper: string -> string, budget: Budget, core: string)
    ensures Assemble(upper, budget, core, []) == Draft(core, EstimateTokens(core), [])
    ensures forall fate :: NamesOf([], [], fate) == []
  {
  }

  lemma OneMoreSection(upper: string -> string, budget: Budget, core: string, sections: seq<Section>, section: Section,
                       fates: seq<Fate>, fate: Fate)
    requires |fates| == |sections|
    ensures Assemble(upper, budget, core, sections + [section]) ==
              var draft := Assemble(upper, budget, core, sections);
              var placed := Place(upper, budget, draft.used, section);
              Draft(draft.rendered + placed.piece, placed.used, draft.fates + [placed.fate])
    ensures forall which :: NamesOf(sections + [section], fates + [fate], which) ==
                            NamesOf(sections, fates, which) + if fate == which then [section.name] else []
  {
    hide Place;
    assert (sections + [section])[..|sections|] == sections && (fates + [fate])[..|fates|] == fates;
  }

  // ----- what an accepted prompt is -----

  /** An accepted prompt starts with the unmodified core, its bytes are at most three times the reported
      tokens, and the tokens stay within the budget when one is known. */
  lemma {:induction false} PromptFits(upper: string -> string, budget: Budget, core: string, sections: seq<Section>)
    requires budget.Bounded? ==> EstimateTokens(core) <= budget.tokens
    ensures var draft := Assemble(upper, budget, core, sections);
            && core <= draft.rendered && |draft.fates| == |sections|
            && Bytes(draft.rendered) <= 3 * draft.used
            && (budget.Bounded? ==> draft.used <= budget.tokens)
            && (!budget.Bounded? ==> forall i :: 0 <= i < |sections| ==> draft.fates[i] == Included)
  {
    hide Place, Bytes;
    if sections == [] {
      EstimateIsCeiling(core);
    } else {
      var init, section := sections[..|sections| - 1], sections[|sections| - 1];
      PromptFits(upper, budget, core, init);
      var draft := Assemble(upper, budget, core, init);
      var placed := Place(upper, budget, draft.used, section);
      BytesConcat(draft.rendered, placed.piece);
      PlacementFits(upper, budget, draft.used, section);
    }
  }

  lemma PlacementFits(upper: string -> string, budget: Budget, used: nat, section: Section)
    requires budget.Bounded? ==> used <= budget.tokens
    ensures var placed := Place(upper, budget, used, section);
            && Bytes(placed.piece) <= 3 * (placed.used - used)
            && (budget.Bounded? ==> placed.used <= budget.tokens)
            && (!budget.Bounded? ==> placed.fate == Included)
  {
    hide Block, Compacted, EstimateTokens, Bytes;
    var placed := Place(upper, budget, used, section);
    EstimateIsCeiling(placed.piece);
    assert Bytes("") == 0 by { NoBytes(); }
    if budget.Bounded? {
      CompactedFits(upper, budget.tokens - used, section);
    }
  }

  lemma NoBytes()
    ensures Bytes("") == 0
  {
  }

  /** A section is truncated only when it did not fit, and then to something that does: shorter than it
      was, and apart from the marker a prefix of its text. */
  lemma TruncatedIsAPrefix(upper: string -> string, budget: Budget, used: nat, section: Section) returns (kept: string)
    requires Place(upper, budget, used, section).fate == Truncated && (budget.Bounded? ==> used <= budget.tokens)
    ensures kept <= Strip(section.text)
    ensures Place(upper, budget, used, section).piece == Block(upper, section.name, kept + MARKER)
    ensures Bytes(Place(upper, budget, used, section).piece) < Bytes(Block(upper, section.name, section.text))
  {
    hide Block, Truncate, Bytes, Strip;
    var remaining := budget.tokens - used;
    var tokens := remaining - EstimateTokens(Block(upper, section.name, ""));
    TruncateFits(Strip(section.text), tokens);
    kept :| kept <= Strip(section.text) && Truncate(Strip(section.text), tokens) == kept + MARKER;
    CompactedFits(upper, remaining, section);
    EstimateIsCeiling(Block(upper, section.name, kept + MARKER));
    EstimateIsCeiling(Block(upper, section.name, section.text));
  }

  /** Every section is named in exactly one list of the report. */
  lemma {:induction false} EverySectionHasOneFate(sections: seq<Section>, fates: seq<Fate>)
    requires |fates| == |sections|
    ensures multiset(NamesOf(sections, fates, Included)) + multiset(NamesOf(sections, fates, Truncated))
            + multiset(NamesOf(sections, fates, Dropped)) == multiset(Names(sections))
  {
    if sections != [] {
      EverySectionHasOneFate(sections[..|sections| - 1], fates[..|fates| - 1]);
    }
  }

  function Names(sections: seq<Section>): seq<string> {
    if sections == [] then [] else Names(sections[..|sections| - 1]) + [sections[|sections| - 1].name]
  }

  /** With a known window, an accepted prompt and the output reserve fit it together. */
  lemma PromptLeavesTheReserve(upper: string -> string, limits: Limits, text: string, sections: seq<Section>)
    requires InputBudget(limits).Bounded? && EstimateTokens(Strip(text)) <= InputBudget(limits).tokens
    ensures Assemble(upper, InputBudget(limits), Strip(text), sections).used + OutputReserve(limits)
              <= limits.window.value
    ensures Bytes(Assemble(upper, InputBudget(limits), Strip(text), sections).rendered)
              <= 3 * (limits.window.value - OutputReserve(limits))
    ensures Assemble(upper, InputBudget(limits), Strip(text), sections).used as real
              <= limits.window.value as real * limits.inputFraction
  {
    hide Assemble, Bytes, EstimateTokens, Strip;
    PromptFits(upper, InputBudget(limits), Strip(text), sections);
  }

  // ----- what the prompt shows -----

  function Joined(pieces: seq<string>): string {
    if pieces == [] then "" else Joined(pieces[..|pieces| - 1]) + pieces[|pieces| - 1]
  }

  function Tokens(pieces: seq<string>): nat {
    if pieces == [] then 0 else Tokens(pieces[..|pieces| - 1]) + EstimateTokens(pieces[|pieces| - 1])
  }

  /** `kept` is as much of the text as fits the tokens beside the marker, without spaces at its end. */
  ghost predicate IsCut(kept: string, text: string, tokens: int) {
    exists n: nat :: n <= |text| && kept == RightStrip(text[..n]) && Bytes(text[..n]) + Bytes(MARKER) <= 3 * tokens
                     && (n < |text| ==> Bytes(text[..n + 1]) + Bytes(MARKER) > 3 * tokens)
  }

  lemma TruncateIs(text: string, tokens: int) returns (kept: string)
    requires tokens > EstimateTokens(MARKER)
    ensures IsCut(kept, text, tokens) && kept <= text && Truncate(text, tokens) == kept + MARKER
  {
    hide Encode, RightStrip, DecodeIgnore;
    EstimateIsCeiling(MARKER);
    var room := 3 * tokens - Bytes(MARKER);
    var raw := Encode(text);
    var n := CutKeepsWholeChars(text, if |raw| < room then |raw| else room);
    kept := RightStrip(text[..n]);
    RightStripIsPrefix(text[..n]);
    if n < |text| && |raw| < room {
      MoreBytes(text, n + 1);
    }
    assert n <= |text| && kept == RightStrip(text[..n]) && Bytes(text[..n]) + Bytes(MARKER) <= 3 * tokens;
  }

  lemma MoreBytes(text: string, n: nat)
    requires n <= |text|
    ensures Bytes(text[..n]) <= Bytes(text)
  {
    assert text == text[..n] + text[n..];
    BytesConcat(text[..n], text[n..]);
  }

  /** What the prompt shows of one section: all of its text under its heading when that fits what the window leaves;
      else as much as fits beside the marker; else, when not even the heading and the marker fit, nothing. */
  ghost predicate Shows(upper: string -> string, budget: Budget, used: nat, section: Section, fate: Fate,
                        piece: string)
  {
    var heading := "\n\n" + upper(section.name) + HEADER;
    var whole := heading + Strip(section.text) + "\n";
    var room: int := if budget.Bounded? then budget.tokens - used else 0;
    var fits := !budget.Bounded? || EstimateTokens(whole) <= room;
    var left := room - EstimateTokens(heading + "\n");
    match fate
    case Included => fits && piece == whole
    case Truncated =>
      && !fits && left > EstimateTokens(MARKER) && EstimateTokens(piece) <= room
      && exists kept :: IsCut(kept, Strip(section.text), left) && kept <= Strip(section.text)
                        && piece == heading + (if kept == "" then MARKER[1..] else kept + MARKER) + "\n"
    case Dropped => !fits && left <= EstimateTokens(MARKER) && piece == ""
  }

  lemma StripBeforeMarker(text: string, kept: string)
    requires kept <= Strip(text)
    ensures Strip(kept + MARKER) == if kept == "" then MARKER[1..] else kept + MARKER
  {
    hide Strip;
    if kept == "" {
      assert kept + MARKER == MARKER;
      MarkerStripped();
    } else {
      var front, back := StripIs(text);
      StripKeeps(kept + MARKER);
    }
  }

  lemma MarkerStripped()
    ensures Strip(MARKER) == MARKER[1..]
  {
    hide RightStrip;
    var note := "...[" + NOTICE + "]";
    assert MARKER[0] == '\n' && MARKER[1..] == note && note[0] == '.' && note[|note| - 1] == ']';
    assert LeftStrip(MARKER) == LeftStrip(note);
    StripKeeps(note);
  }

  lemma PlacementShows(upper: string -> string, budget: Budget, used: nat, section: Section)
    requires budget.Bounded? ==> used <= budget.tokens
    ensures var placed := Place(upper, budget, used, section);
            Shows(upper, budget, used, section, placed.fate, placed.piece)
            && placed.used == used + EstimateTokens(placed.piece)
  {
    hide Strip, Truncate, EstimateTokens, IsCut;
    var heading := "\n\n" + upper(section.name) + HEADER;
    assert heading + Strip("") + "\n" == heading + "\n" by { StripNothing(); }
    assert EstimateTokens("") == 0 by { EstimateIsCeiling(""); }
    var placed := Place(upper, budget, used, section);
    if placed.fate != Included {
      var left := budget.tokens - used - EstimateTokens(heading + "\n");
      TruncateFits(Strip(section.text), left);
      if placed.fate == Truncated {
        var kept := TruncateIs(Strip(section.text), left);
        StripBeforeMarker(section.text, kept);
        CompactedFits(upper, budget.tokens - used, section);
      }
    }
  }

  /** Each piece is what the prompt shows of its section, given the tokens in use before it. */
  ghost predicate ShowsAll(upper: string -> string, budget: Budget, used: nat, sections: seq<Section>,
                           fates: seq<Fate>, pieces: seq<string>)
  {
    && |sections| == |fates| == |pieces|
    && forall i :: 0 <= i < |sections| ==>
         Shows(upper, budget, used + Tokens(pieces[..i]), sections[i], fates[i], pieces[i])
  }

  /** The prompt is the core followed by what it shows of each section, in order, and the reported tokens are those of
      the core and of the pieces. */
  lemma {:induction false} PromptIs(upper: string -> string, budget: Budget, core: string, sections: seq<Section>)
    returns (pieces: seq<string>)
    requires budget.Bounded? ==> EstimateTokens(core) <= budget.tokens
    ensures var draft := Assemble(upper, budget, core, sections);
            && draft.rendered == core + Joined(pieces) && draft.used == EstimateTokens(core) + Tokens(pieces)
            && ShowsAll(upper, budget, EstimateTokens(core), sections, draft.fates, pieces)
  {
    hide Place, EstimateTokens, ShowsAll, Joined, Tokens;
    pieces := [];
    if sections == [] {
      NoPieces(upper, budget, core);
    } else {
      var init, section := sections[..|sections| - 1], sections[|sections| - 1];
      var before := PromptIs(upper, budget, core, init);
      PromptFits(upper, budget, core, init);
      var draft := Assemble(upper, budget, core, init);
      PlacementShows(upper, budget, draft.used, section);
      var placed := Place(upper, budget, draft.used, section);
      pieces := before + [placed.piece];
      OneMorePiece(core, before, placed.piece);
      OneMoreShown(upper, budget, EstimateTokens(core), init, draft.fates, before, section, placed.fate, placed.piece);
      assert sections == init + [section];
    }
  }

  lemma NoPieces(upper: string -> string, budget: Budget, core: string)
    ensures core + Joined([]) == core && Tokens([]) == 0
    ensures forall used :: ShowsAll(upper, budget, used, [], [], [])
  {
  }

  lemma OneMoreShown(upper: string -> string, budget: Budget, used: nat, sections: seq<Section>, fates: seq<Fate>,
                     pieces: seq<string>, section: Section, fate: Fate, piece: string)
    requires ShowsAll(upper, budget, used, sections, fates, pieces)
    requires Shows(upper, budget, used + Tokens(pieces), section, fate, piece)
    ensures ShowsAll(upper, budget, used, sections + [section], fates + [fate], pieces + [piece])
  {
    hide Shows, Tokens;
    assert forall i :: 0 <= i <= |pieces| ==> (pieces + [piece])[..i] == pieces[..i];
    assert pieces[..|pieces|] == pieces;
  }

  lemma OneMorePiece(core: string, pieces: seq<string>, piece: string)
    ensures core + Joined(pieces + [piece]) == core + Joined(pieces) + piece
    ensures Tokens(pieces + [piece]) == Tokens(pieces) + EstimateTokens(piece)
  {
    hide EstimateTokens;
    assert (pieces + [piece])[..|pieces|] == pieces;
    assert core + Joined(pieces) + piece == core + (Joined(pieces) + piece);
  }

  /** Where one section's piece stands: after the core and the earlier pieces. */
  lemma {:induction false} PieceStands(pieces: seq<string>, i: nat) returns (rest: string)
    requires i < |pieces|
    ensures Joined(pieces) == Joined(pieces[..i]) + pieces[i] + rest
  {
    if i == |pieces| - 1 {
      rest := "";
    } else {
      var init := pieces[..|pieces| - 1];
      var more := PieceStands(init, i);
      assert init[..i] == pieces[..i];
      rest := more + pieces[|pieces| - 1];
    }
  }

  /** A section reported as included stands in the prompt with all of its text, behind the core and under its name. */
  lemma IncludedIsShown(upper: string -> string, budget: Budget, core: string, sections: seq<Section>, i: nat)
    returns (before: string, after: string)
    requires budget.Bounded? ==> EstimateTokens(core) <= budget.tokens
    requires i < |sections| && |Assemble(upper, budget, core, sections).fates| == |sections|
    requires Assemble(upper, budget, core, sections).fates[i] == Included
    ensures Assemble(upper, budget, core, sections).rendered ==
              core + before + upper(sections[i].name) + HEADER + Strip(sections[i].text) + after
  {
    hide EstimateTokens, Assemble, Strip;
    var pieces := PromptIs(upper, budget, core, sections);
    var rest := PieceStands(pieces, i);
    before, after := Joined(pieces[..i]) + "\n\n", "\n" + rest;
    Regroup(core, Joined(pieces[..i]), "\n\n", upper(sections[i].name), HEADER, Strip(sections[i].text), "\n", rest);
  }

  lemma Regroup(a: string, b: string, c: string, d: string, e: string, f: string, g: string, h: string)
    ensures a + (b + (c + d + e + f + g) + h) == a + (b + c) + d + e + f + (g + h)
  {
  }
}
