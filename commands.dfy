/** The two chat commands that carry logic of their own: `/qolvisible` and
    `/performance`. Each is a pure function from the command's argument text to
    what the plugin does with it: an error printed to chat, or one request to a
    collaborator (`PluginUI.SetBarHidden`, `Game.StartPerformance`). */
module Commands {
  import opened Primitives
  import opened DotNetText

  /** Text of `PrintError(message)`. */
  function ChatError(message: string): (text: string)
    ensures |text| == |message| + 10 && text[..10] == "[QoL Bar] " && text[10..] == message
  {
    "[QoL Bar] " + message
  }

  // ---------------------------------------------------------------------------
  // The regular expression ^(\w+) (.+)

  predicate IsNotNewline(c: char) { c != '\n' }

  /** `Regex.Match(s, @"^(\w+) (.+)")`: on success, the values of groups 1 and 2.
      Group 1 is the maximal run of word characters at the start; group 2 runs
      from after the space up to the first line feed (`.` does not match `\n`). */
  function MatchBarCommand(s: string): Option<(string, string)> {
    var k := PrefixLength(s, IsWordChar);
    if 0 < k && k + 1 < |s| && s[k] == ' ' && s[k + 1] != '\n' then
      var rest := s[k + 1..];
      Some((s[..k], rest[..PrefixLength(rest, IsNotNewline)]))
    else
      None
  }

  /** The pattern matches `s` with group 1 ending at `k`: at least one word
      character, a space, and at least one character other than a line feed. */
  ghost predicate AcceptsAt(s: string, k: nat) {
    0 < k && k + 1 < |s| && (forall i :: 0 <= i < k ==> IsWordChar(s[i])) && s[k] == ' ' && s[k + 1] != '\n'
  }

  ghost predicate RegexAccepts(s: string) {
    exists k :: AcceptsAt(s, k)
  }

  /** `word` and `bar` are the groups of the pattern's match on `s`: the match
      starts at the beginning, `.+` is greedy and stops only before a line feed
      or at the end of the text. */
  ghost predicate IsMatch(s: string, word: string, bar: string) {
    var n := |word| + 1 + |bar|;
    |word| > 0 && |bar| > 0 && n <= |s|
    && s[..|word|] == word && s[|word|] == ' ' && s[|word| + 1..n] == bar
    && (forall i :: 0 <= i < |word| ==> IsWordChar(word[i]))
    && (forall i :: 0 <= i < |bar| ==> bar[i] != '\n')
    && (n == |s| || s[n] == '\n')
  }

  /** The matcher succeeds exactly on the texts the pattern accepts. */
  lemma MatchBarCommandAccepts(s: string)
    ensures MatchBarCommand(s).Some? <==> RegexAccepts(s)
  {
    var k := PrefixLength(s, IsWordChar);
    if RegexAccepts(s) {
      var j: nat :| AcceptsAt(s, j);
      assert AcceptsAt(s, k);
    }
    if MatchBarCommand(s).Some? {
      assert AcceptsAt(s, k);
    }
  }

  /** The groups the matcher returns are exactly those of the pattern's match. */
  lemma MatchBarCommandGroups(s: string, word: string, bar: string)
    ensures MatchBarCommand(s) == Some((word, bar)) <==> IsMatch(s, word, bar)
  {
    var k := PrefixLength(s, IsWordChar);
    if MatchBarCommand(s) == Some((word, bar)) {
      var rest := s[k + 1..];
      var m := PrefixLength(rest, IsNotNewline);
      assert |word| == k && |bar| == m;
      assert s[|word| + 1..|word| + 1 + |bar|] == rest[..m];
      assert forall i :: 0 <= i < |bar| ==> bar[i] == rest[i];
      assert |word| + 1 + |bar| < |s| ==> s[|word| + 1 + |bar|] == rest[m];
    }
    if IsMatch(s, word, bar) {
      var n := |word| + 1 + |bar|;
      assert forall i :: 0 <= i < |word| ==> s[i] == word[i];
      assert k == |word|;
      var rest := s[k + 1..];
      assert forall i :: 0 <= i < |bar| ==> rest[i] == bar[i];
      assert n < |s| ==> rest[|bar|] == s[n];
      var m := PrefixLength(rest, IsNotNewline);
      assert rest[..m] == bar;
    }
  }

  // ---------------------------------------------------------------------------
  // /qolvisible [on|off|toggle] <bar>

  datatype Visibility = Reveal | Hide | Toggle

  /** The subcommand switch, on the lower-cased first word. */
  function SubcommandAlias(sub: string): Option<Visibility> {
    if sub == "on" || sub == "reveal" || sub == "r" then Some(Reveal)
    else if sub == "off" || sub == "hide" || sub == "h" then Some(Hide)
    else if sub == "toggle" || sub == "t" then Some(Toggle)
    else None
  }

  /** What the command does. `hide == None` stands for a call that leaves
      `SetBarHidden`'s optional `hide` argument at its default. */
  datatype VisibleOutcome =
    | UsageError
    | InvalidSubcommand
    | SetByIndex(index: int, toggle: bool, hide: Option<bool>)
    | SetByName(name: string, toggle: bool, hide: Option<bool>)

  /** The `(toggle, hide)` arguments each subcommand passes to `SetBarHidden`. */
  function SetBarHiddenArgs(v: Visibility): (bool, Option<bool>) {
    match v
    case Reveal => (false, Some(false))
    case Hide => (false, Some(true))
    case Toggle => (true, None)
  }

  /** `OnQoLVisible(command, argument)`. */
  function QoLVisible(argument: string): VisibleOutcome {
    match MatchBarCommand(argument)
    case None => UsageError
    case Some((word, bar)) =>
      match SubcommandAlias(ToLower(word))
      case None => InvalidSubcommand
      case Some(v) =>
        var args := SetBarHiddenArgs(v);
        match TryParseInt32(bar)
        case Some(id) => SetByIndex(Wrap32(id - 1), args.0, args.1)
        case None => SetByName(bar, args.0, args.1)
  }

  /** The chat message an outcome prints, if it is an error. */
  function VisibleErrorMessage(r: VisibleOutcome): Option<string> {
    match r
    case UsageError => Some(ChatError("Usage: /qolvisible [on|off|toggle] <bar>"))
    case InvalidSubcommand => Some(ChatError("Invalid subcommand."))
    case _ => None
  }

  /** Each outcome's error text: the usage text, the invalid-subcommand text,
      or none for the two `SetBarHidden` requests. */
  lemma VisibleErrorMessageText(r: VisibleOutcome)
    ensures VisibleErrorMessage(r) == Some(ChatError("Usage: /qolvisible [on|off|toggle] <bar>")) <==> r == UsageError
    ensures VisibleErrorMessage(r) == Some(ChatError("Invalid subcommand.")) <==> r == InvalidSubcommand
    ensures VisibleErrorMessage(r).None? <==> r.SetByIndex? || r.SetByName?
  {
  }

  /** The chat error `/qolvisible` prints: the usage text exactly when the
      pattern rejects the argument, and no error exactly when `SetBarHidden`
      is called. */
  lemma QoLVisibleErrorText(argument: string)
    ensures VisibleErrorMessage(QoLVisible(argument)) == Some(ChatError("Usage: /qolvisible [on|off|toggle] <bar>")) <==>
      !RegexAccepts(argument)
    ensures VisibleErrorMessage(QoLVisible(argument)) == Some(ChatError("Invalid subcommand.")) <==>
      QoLVisible(argument) == InvalidSubcommand
    ensures VisibleErrorMessage(QoLVisible(argument)).None? <==>
      QoLVisible(argument).SetByIndex? || QoLVisible(argument).SetByName?
  {
    QoLVisibleUsageError(argument);
    VisibleErrorMessageText(QoLVisible(argument));
  }

  predicate RevealSpelling(w: string) {
    SpellsIgnoringCase(w, "on") || SpellsIgnoringCase(w, "reveal") || SpellsIgnoringCase(w, "r")
  }

  predicate HideSpelling(w: string) {
    SpellsIgnoringCase(w, "off") || SpellsIgnoringCase(w, "hide") || SpellsIgnoringCase(w, "h")
  }

  predicate ToggleSpelling(w: string) {
    SpellsIgnoringCase(w, "toggle") || SpellsIgnoringCase(w, "t")
  }

  /** The lower-cased subcommand selects an alias exactly when the word spells
      that alias in any mix of cases. */
  lemma AliasIgnoresCase(w: string)
    ensures SubcommandAlias(ToLower(w)) == Some(Reveal) <==> RevealSpelling(w)
    ensures SubcommandAlias(ToLower(w)) == Some(Hide) <==> HideSpelling(w)
    ensures SubcommandAlias(ToLower(w)) == Some(Toggle) <==> ToggleSpelling(w)
    ensures SubcommandAlias(ToLower(w)).None? <==> !RevealSpelling(w) && !HideSpelling(w) && !ToggleSpelling(w)
  {
    ToLowerIsLiteral(w, "on");
    ToLowerIsLiteral(w, "reveal");
    ToLowerIsLiteral(w, "r");
    ToLowerIsLiteral(w, "off");
    ToLowerIsLiteral(w, "hide");
    ToLowerIsLiteral(w, "h");
    ToLowerIsLiteral(w, "toggle");
    ToLowerIsLiteral(w, "t");
  }

  /** Text the pattern rejects gets only the usage error. */
  lemma QoLVisibleUsageError(argument: string)
    ensures QoLVisible(argument) == UsageError <==> !RegexAccepts(argument)
  {
    MatchBarCommandAccepts(argument);
  }

  /** For matching text with groups `word` and `bar`: the alias spelled by
      `word` (in any case) picks the `(toggle, hide)` request; any other word is
      an invalid subcommand; integer text in `bar` targets the bar at index N-1
      (with C#'s unchecked wrap-around), any other text targets the bar named by
      all of `bar`. */
  lemma QoLVisibleDispatch(argument: string, word: string, bar: string)
    requires IsMatch(argument, word, bar)
    ensures var r := QoLVisible(argument);
      && (r == InvalidSubcommand <==> !RevealSpelling(word) && !HideSpelling(word) && !ToggleSpelling(word))
      && (RevealSpelling(word) ==> (r.SetByIndex? || r.SetByName?) && !r.toggle && r.hide == Some(false))
      && (HideSpelling(word) ==> (r.SetByIndex? || r.SetByName?) && !r.toggle && r.hide == Some(true))
      && (ToggleSpelling(word) ==> (r.SetByIndex? || r.SetByName?) && r.toggle && r.hide == None)
      && (r.SetByIndex? ==> TryParseInt32(bar).Some? && r.index == Wrap32(TryParseInt32(bar).value - 1))
      && (r.SetByName? ==> TryParseInt32(bar).None? && r.name == bar)
      && r != UsageError
  {
    MatchBarCommandGroups(argument, word, bar);
    AliasIgnoresCase(word);
  }

  lemma SpellsItself(lit: string)
    ensures SpellsIgnoringCase(lit, lit)
  {
  }

  /** `off N` matches with groups `off` and the digits of N. */
  lemma OffTextMatches(n: int)
    ensures IsMatch("off " + IntToString(n), "off", IntToString(n))
  {
    var s := "off " + IntToString(n);
    IntToStringHasNoWhiteSpace(n);
    assert s[..3] == "off" && s[4..] == IntToString(n);
  }

  /** A hide alias with integer text hides the bar at that index minus one. */
  lemma QoLVisibleHideIndex(argument: string, word: string, bar: string, n: int)
    requires IsMatch(argument, word, bar) && HideSpelling(word) && TryParseInt32(bar) == Some(n)
    ensures QoLVisible(argument) == SetByIndex(Wrap32(n - 1), false, Some(true))
  {
    QoLVisibleDispatch(argument, word, bar);
  }

  /** `/qolvisible off N` hides the bar at 1-based position N. */
  lemma QoLVisibleHideByPosition(n: int)
    requires IsInt32(n)
    ensures QoLVisible("off " + IntToString(n)) == SetByIndex(Wrap32(n - 1), false, Some(true))
    ensures n > Int32Min ==> QoLVisible("off " + IntToString(n)).index == n - 1
  {
    OffTextMatches(n);
    TryParseInt32RoundTrip(n);
    SpellsItself("off");
    QoLVisibleHideIndex("off " + IntToString(n), "off", IntToString(n), n);
  }

  // ---------------------------------------------------------------------------
  // /performance <instrument-name-or-number>

  /** A row of the `Perform` sheet: its `Instrument` name and its `RowId`. */
  type InstrumentRow = (string, nat)

  datatype PerformOutcome = InvalidInstrument | StartPerformance(instrument: byte)

  /** `FirstOrDefault(r => argument.Equals(r.Instrument, CurrentCultureIgnoreCase))`,
      as the index of the row. */
  function FirstRowNamed(table: seq<InstrumentRow>, name: string): (r: Option<nat>)
    ensures r.Some? ==> r.value < |table| && EqualsIgnoreCase(name, table[r.value].0)
    ensures r.Some? ==> forall j :: 0 <= j < r.value ==> !EqualsIgnoreCase(name, table[j].0)
    ensures r.None? ==> forall j :: 0 <= j < |table| ==> !EqualsIgnoreCase(name, table[j].0)
  {
    var k := PrefixLength(table, (row: InstrumentRow) => !EqualsIgnoreCase(name, row.0));
    if k < |table| then Some(k) else None
  }

  /** The byte `b` holds after the parse-then-lookup statement. */
  function PerformanceSelector(argument: string, table: seq<InstrumentRow>): byte {
    match TryParseByte(argument)
    case Some(b) => b
    case None =>
      match FirstRowNamed(table, argument)
      case Some(k) => ToByte(table[k].1)
      case None => 0
  }

  /** `OnPerformance(command, argument)`. */
  function Performance(argument: string, table: seq<InstrumentRow>): (r: PerformOutcome)
    ensures r.StartPerformance? ==> r.instrument != 0
  {
    var b := PerformanceSelector(argument, table);
    if b == 0 then InvalidInstrument else StartPerformance(b)
  }

  function PerformErrorMessage(r: PerformOutcome): Option<string> {
    if r.InvalidInstrument? then Some(ChatError("Invalid instrument.")) else None
  }

  /** The chat error `/performance` prints: "Invalid instrument." exactly when
      the selected byte is 0; otherwise nothing is printed and that byte is
      played. */
  lemma PerformanceErrorText(argument: string, table: seq<InstrumentRow>)
    ensures PerformErrorMessage(Performance(argument, table)) == Some(ChatError("Invalid instrument.")) <==>
      PerformanceSelector(argument, table) == 0
    ensures PerformErrorMessage(Performance(argument, table)).None? <==>
      Performance(argument, table) == StartPerformance(PerformanceSelector(argument, table))
  {
  }

  /** A byte literal is used as it is, whatever the table holds; 0 is rejected. */
  lemma PerformanceByNumber(argument: string, table: seq<InstrumentRow>, b: byte)
    requires TryParseByte(argument) == Some(b)
    ensures Performance(argument, table) == if b == 0 then InvalidInstrument else StartPerformance(b)
  {
  }

  /** Any byte's decimal text, "0" included, selects that byte. */
  lemma PerformanceByNumberText(b: byte, table: seq<InstrumentRow>)
    ensures Performance(IntToString(b as int), table) == if b == 0 then InvalidInstrument else StartPerformance(b)
  {
    TryParseByteRoundTrip(b);
  }

  /** Otherwise the first row named like the argument, in any case, supplies
      the low byte of its `RowId`. */
  lemma PerformanceByName(argument: string, table: seq<InstrumentRow>, k: nat)
    requires TryParseByte(argument).None?
    requires k < |table| && EqualsIgnoreCase(argument, table[k].0)
    requires forall j :: 0 <= j < k ==> !EqualsIgnoreCase(argument, table[j].0)
    ensures var b := ToByte(table[k].1);
      Performance(argument, table) == if b == 0 then InvalidInstrument else StartPerformance(b)
  {
  }

  /** An argument that is neither a byte nor an instrument name is rejected. */
  lemma PerformanceUnknown(argument: string, table: seq<InstrumentRow>)
    requires TryParseByte(argument).None?
    requires forall j :: 0 <= j < |table| ==> !EqualsIgnoreCase(argument, table[j].0)
    ensures Performance(argument, table) == InvalidInstrument
  {
  }
}
