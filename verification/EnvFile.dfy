/** The project env file: `KEY=value` lines, values single-quoted the shell's way, never executed. */
module EnvFile {
  import opened Wrappers
  import opened Text

  const QUOTE := "'"
  const ESCAPED_QUOTE := "'\\''"

  function ShellQuote(value: string): string { QUOTE + Replace(value, QUOTE, ESCAPED_QUOTE) + QUOTE }

  predicate IsQuoted(s: string) { 2 <= |s| && s[0] == '\'' && s[|s| - 1] == '\'' }

  function ShellUnquote(value: string): string
  {
    var trimmed := Trim(value);
    if IsQuoted(trimmed) then Replace(trimmed[1..|trimmed| - 1], ESCAPED_QUOTE, QUOTE) else trimmed
  }

  /** What a line contributes: nothing, an assignment, or it is not one. */
  datatype EnvLine = Ignored | Assignment(key: string, value: string) | NotAnAssignment

  function ReadLine(raw: string): EnvLine
  {
    var line := Trim(raw);
    if line == "" || line[0] == '#' then Ignored
    else
      match IndexOf(line, '=')
      case None => NotAnAssignment
      case Some(i) => Assignment(Trim(line[..i]), ShellUnquote(line[i + 1..]))
  }

  /** The assignments of the first lines; a later line for the same key wins. */
  function Assignments(lines: seq<string>): map<string, string>
  {
    if lines == [] then map[]
    else
      var before, last := Assignments(lines[..|lines| - 1]), ReadLine(lines[|lines| - 1]);
      if last.Assignment? then before[last.key := last.value] else before
  }

  /** The lenient reader: a line without `=` is skipped. */
  method ParseDent8Env(contents: string) returns (env: map<string, string>)
    ensures env == Assignments(Lines(contents))
  {
    hide ReadLine, Lines;
    env := map[];
    var lines := Lines(contents);
    for i := 0 to |lines|
      invariant env == Assignments(lines[..i])
    {
      assert lines[..i + 1][..i] == lines[..i];
      var read := ReadLine(lines[i]);
      if read.Assignment? { env := env[read.key := read.value]; }
    }
    assert lines[..|lines|] == lines;
  }

  /** The strict reader: it refuses such a line, naming it, and otherwise reads what the lenient one does. */
  method ReadEnvFile(contents: string) returns (env: Result<map<string, string>, nat>)
    ensures match env
            case Ok(read) =>
              && read == Assignments(Lines(contents))
              && forall i :: 0 <= i < |Lines(contents)| ==> !ReadLine(Lines(contents)[i]).NotAnAssignment?
            case Err(line) =>
              && 1 <= line <= |Lines(contents)| && ReadLine(Lines(contents)[line - 1]).NotAnAssignment?
              && forall i :: 0 <= i < line - 1 ==> !ReadLine(Lines(contents)[i]).NotAnAssignment?
  {
    hide ReadLine, Lines;
    var read: map<string, string> := map[];
    var lines := Lines(contents);
    for i := 0 to |lines|
      invariant read == Assignments(lines[..i])
      invariant forall j :: 0 <= j < i ==> !ReadLine(lines[j]).NotAnAssignment?
    {
      assert lines[..i + 1][..i] == lines[..i];
      var line := ReadLine(lines[i]);
      if line.NotAnAssignment? { return Err(i + 1); }
      if line.Assignment? { read := read[line.key := line.value]; }
    }
    assert lines[..|lines|] == lines;
    return Ok(read);
  }

  // ---- Round trip ---------------------------------------------------------------------

  /** Decoding stays aligned with the encoded characters: no escape is found across two of them. */
  lemma {:induction false} EscapingIsUndone(value: string)
    ensures Replace(Replace(value, QUOTE, ESCAPED_QUOTE), ESCAPED_QUOTE, QUOTE) == value
  {
    if value != "" {
      var rest := Replace(value[1..], QUOTE, ESCAPED_QUOTE);
      EscapingIsUndone(value[1..]);
      assert value == [value[0]] + value[1..];
      if value[0] == '\'' {
        assert QUOTE <= value;
        assert Replace(value, QUOTE, ESCAPED_QUOTE) == ESCAPED_QUOTE + rest;
        assert (ESCAPED_QUOTE + rest)[|ESCAPED_QUOTE|..] == rest;
      } else {
        assert !(QUOTE <= value);
        assert Replace(value, QUOTE, ESCAPED_QUOTE) == [value[0]] + rest;
        assert !(ESCAPED_QUOTE <= [value[0]] + rest);
        assert ([value[0]] + rest)[1..] == rest;
      }
    }
  }

  lemma QuotedIsTight(s: string)
    requires s != "" && !IsWhitespace(s[0]) && s[|s| - 1] == '\''
    ensures Trim(s) == s
  {
    TrimOfTight(s);
  }

  /** Whatever the value, whitespace at its ends, quotes and backslashes included. */
  lemma UnquoteOfQuote(value: string)
    ensures ShellUnquote(ShellQuote(value)) == value
  {
    hide Replace, Trim;
    var quoted := ShellQuote(value);
    QuotedIsTight(quoted);
    assert quoted[1..|quoted| - 1] == Replace(value, QUOTE, ESCAPED_QUOTE);
    EscapingIsUndone(value);
  }

  predicate IsTight(s: string) { s != "" ==> !IsWhitespace(s[0]) && !IsWhitespace(s[|s| - 1]) }

  /** A key that a line can say, the empty one included: no `=` in it, no `#` at its front, no whitespace at its ends. */
  predicate IsKey(key: string) { IsTight(key) && '=' !in key && (key != "" ==> key[0] != '#') }

  lemma {:induction false} ReplaceKeepsLineFeedOut(value: string)
    requires '\n' !in value
    ensures '\n' !in Replace(value, QUOTE, ESCAPED_QUOTE)
  {
    if value != "" {
      ReplaceKeepsLineFeedOut(value[1..]);
      assert QUOTE <= value ==> value[|QUOTE|..] == value[1..];
    }
  }

  lemma AssignmentReadsBack(key: string, value: string)
    requires IsKey(key)
    ensures ReadLine(key + "=" + ShellQuote(value)) == Assignment(key, value)
    ensures StripCr(key + "=" + ShellQuote(value)) == key + "=" + ShellQuote(value)
  {
    EqualsIsNotWhitespace();
    hide ShellUnquote, Replace, Trim, IsWhitespace;
    UnquoteOfQuote(value);
    var line := key + "=" + ShellQuote(value);
    assert line[0] == (if key == "" then '=' else key[0]) && line[|line| - 1] == '\'';
    QuotedIsTight(line);
    SplitsAtTheKey(key, ShellQuote(value));
    TrimOfTight(key);
  }

  /** Those are all the keys that read back. */
  lemma AssignmentReadsBackIff(key: string, value: string)
    ensures ReadLine(key + "=" + ShellQuote(value)) == Assignment(key, value) <==> IsKey(key)
  {
    EqualsIsNotWhitespace();
    hide ShellUnquote, ShellQuote, Trim, IsWhitespace;
    var raw := key + "=" + ShellQuote(value);
    if IsKey(key) { AssignmentReadsBack(key, value); }
    var line := Trim(raw);
    if ReadLine(raw) == Assignment(key, value) {
      var i := IndexOf(line, '=').value;
      TrimIsTight(line[..i]);
      if key != "" {
        assert raw[0] == key[0];
        TrimKeepsTightStart(raw);
      }
    }
  }

  lemma TrimIsTight(s: string)
    ensures var r := Trim(s); IsTight(r) && forall i :: 0 <= i < |r| ==> r[i] in s
  {
    hide IsWhitespace;
    var t := TrimStart(s);
    var r := TrimEnd(t);
    hide TrimStart, TrimEnd;
    assert forall i :: 0 <= i < |r| ==> r[i] == t[i] && t[i] == s[|s| - |t| + i];
  }

  lemma EqualsIsNotWhitespace()
    ensures !IsWhitespace('=')
  {
  }

  lemma SplitsAtTheKey(key: string, rest: string)
    requires '=' !in key
    ensures IndexOf(key + "=" + rest, '=') == Some(|key|)
    ensures (key + "=" + rest)[..|key|] == key && (key + "=" + rest)[|key| + 1..] == rest
  {
    hide IndexOf, IsWhitespace;
    IndexOfFirst(key, '=', rest);
  }

  // ---- Whole files --------------------------------------------------------------------

  /** A line of a generated file: a comment, a quoted value, or a bare word. */
  datatype Entry = Comment(text: string) | Quoted(key: string, value: string) | Bare(key: string, word: string)
  {
    /** A line can say it, line feeds aside. */
    predicate IsSayable()
    {
      match this
      case Comment(_) => true
      case Quoted(key, _) => IsKey(key)
      case Bare(key, word) => IsKey(key) && IsTight(word) && !IsQuoted(word)
    }

    /** There is no line feed in it. */
    predicate IsOneLine()
    {
      match this
      case Comment(text) => '\n' !in text
      case Quoted(key, value) => '\n' !in key && '\n' !in value
      case Bare(key, word) => '\n' !in key && '\n' !in word
    }

    function Line(): string
    {
      match this
      case Comment(text) => "# " + text
      case Quoted(key, value) => key + "=" + ShellQuote(value)
      case Bare(key, word) => key + "=" + word
    }

    /** What the writer meant by it. */
    function Meaning(): map<string, string>
    {
      match this
      case Comment(_) => map[]
      case Quoted(key, value) => map[key := value]
      case Bare(key, word) => map[key := word]
    }

    /** What the reader makes of its lines. */
    function Says(): map<string, string> { Assignments(Lines(Line() + "\n")) }
  }

  function Render(entries: seq<Entry>): string
  {
    if entries == [] then "" else entries[0].Line() + "\n" + Render(entries[1..])
  }

  /** What the writer meant: the last value given for each key. */
  function Meant(entries: seq<Entry>): map<string, string>
  {
    if entries == [] then map[] else entries[0].Meaning() + Meant(entries[1..])
  }

  function Said(entries: seq<Entry>): map<string, string>
  {
    if entries == [] then map[] else entries[0].Says() + Said(entries[1..])
  }

  lemma {:induction false} AssignmentsConcat(a: seq<string>, b: seq<string>)
    ensures Assignments(a + b) == Assignments(a) + Assignments(b)
    decreases |b|
  {
    hide ReadLine;
    if b == [] {
      assert a + b == a;
    } else {
      var n := |b| - 1;
      AssignmentsConcat(a, b[..n]);
      assert (a + b)[..|a + b| - 1] == a + b[..n] && (a + b)[|a + b| - 1] == b[n];
    }
  }

  /** Each entry says what it says, whatever stands around it. */
  lemma {:induction false} EachIsSaid(entries: seq<Entry>)
    ensures Assignments(Lines(Render(entries))) == Said(entries)
  {
    hide Lines, Assignments, Entry.Line;
    if entries == [] {
      NoText();
      assert Assignments([]) == map[] by { NoAssignments(); }
    } else {
      var line, rest := entries[0].Line(), Render(entries[1..]);
      LinesBreak(line, rest);
      AssignmentsConcat(Lines(line + "\n"), Lines(rest));
      EachIsSaid(entries[1..]);
    }
  }

  lemma NoAssignments()
    ensures Assignments([]) == map[]
  {
  }

  lemma EntryReadsBack(entry: Entry)
    requires entry.IsSayable() && entry.IsOneLine()
    ensures '\n' !in entry.Line()
    ensures var read := ReadLine(StripCr(entry.Line()));
            && (entry.Comment? ==> read == Ignored) && (entry.Quoted? ==> read == Assignment(entry.key, entry.value))
            && (entry.Bare? ==> read == Assignment(entry.key, entry.word))
  {
    hide ReadLine, StripCr, IsWhitespace, Replace;
    CrLfAreWhitespace();
    match entry
    case Comment(text) => CommentIsIgnored(text);
    case Quoted(key, value) =>
      ReplaceKeepsLineFeedOut(value);
      AssignmentReadsBack(key, value);
    case Bare(key, word) => BareReadsBack(key, word);
  }

  lemma BareReadsBack(key: string, word: string)
    requires Bare(key, word).IsSayable() && Bare(key, word).IsOneLine()
    ensures var line := key + "=" + word;
            '\n' !in line && ReadLine(StripCr(line)) == Assignment(key, word)
  {
    EqualsIsNotWhitespace();
    hide Replace, Trim, IsWhitespace;
    var line := key + "=" + word;
    assert line[0] == (if key == "" then '=' else key[0]) && line[|line| - 1] == (if word == "" then '=' else word[|word| - 1]);
    assert IsWhitespace('\r') && IsWhitespace('\n') by { CrLfAreWhitespace(); }
    TrimOfTight(line);
    SplitsAtTheKey(key, word);
    TrimOfTight(key);
    TrimOfTight(word);
  }

  lemma CrLfAreWhitespace()
    ensures IsWhitespace('\r') && IsWhitespace('\n')
  {
  }

  lemma CommentIsIgnored(text: string)
    requires '\n' !in text
    ensures '\n' !in "# " + text && ReadLine(StripCr("# " + text)) == Ignored
  {
    var line := StripCr("# " + text);
    assert line[0] == '#' && !IsWhitespace('#');
    TrimKeepsTightStart(line);
  }

  lemma OneLineSays(entry: Entry)
    requires entry.IsSayable() && entry.IsOneLine()
    ensures entry.Says() == entry.Meaning() && |Lines(entry.Line() + "\n")| == 1
    ensures !ReadLine(Lines(entry.Line() + "\n")[0]).NotAnAssignment?
  {
    hide ReadLine, Entry.Line, Entry.IsSayable, Entry.IsOneLine, Lines, StripCr;
    EntryReadsBack(entry);
    var line := entry.Line();
    FirstLine(line, "");
    NoText();
    assert line + "\n" + "" == line + "\n";
    var lines := Lines(line + "\n");
    assert lines == [StripCr(line)] && lines[..0] == [] && Assignments(lines[..0]) == map[];
    assert Assignments(lines) == if entry.Comment? then map[] else map[][entry.key := if entry.Quoted? then entry.value else entry.word];
  }

  /** A generated file reads back as it was meant, by either reader. */
  lemma {:induction false} EnvFileReadsBack(entries: seq<Entry>)
    requires forall entry :: entry in entries ==> entry.IsSayable() && entry.IsOneLine()
    ensures Assignments(Lines(Render(entries))) == Meant(entries)
    ensures forall i :: 0 <= i < |Lines(Render(entries))| ==> !ReadLine(Lines(Render(entries))[i]).NotAnAssignment?
  {
    hide Lines, Assignments, Entry.IsSayable, Entry.IsOneLine, Entry.Line, Entry.Meaning, ReadLine;
    if entries == [] {
      NoText();
      NoAssignments();
    } else {
      var line, rest := entries[0].Line(), Render(entries[1..]);
      OneLineSays(entries[0]);
      LinesBreak(line, rest);
      AssignmentsConcat(Lines(line + "\n"), Lines(rest));
      EnvFileReadsBack(entries[1..]);
    }
  }

  // ---- Line feeds ---------------------------------------------------------------------

  predicate HoldsNoLineFeed(env: map<string, string>)
  {
    forall key :: key in env ==> '\n' !in key && '\n' !in env[key]
  }

  lemma {:induction false} ReplaceAddsOnly(s: string, needle: string, replacement: string)
    requires needle != "" && '\n' !in s && '\n' !in replacement
    ensures '\n' !in Replace(s, needle, replacement)
    decreases |s|
  {
    if s != "" {
      if needle <= s { ReplaceAddsOnly(s[|needle|..], needle, replacement); } else { ReplaceAddsOnly(s[1..], needle, replacement); }
    }
  }

  lemma ReadLineHoldsNoLineFeed(raw: string)
    requires '\n' !in raw
    ensures ReadLine(raw).Assignment? ==> '\n' !in ReadLine(raw).key && '\n' !in ReadLine(raw).value
  {
    hide Trim, Replace, IndexOf, IsWhitespace;
    TrimIsTight(raw);
    var line := Trim(raw);
    var found := IndexOf(line, '=');
    if found.Some? {
      TrimIsTight(line[..found.value]);
      UnquoteHoldsNoLineFeed(line[found.value + 1..]);
    }
  }

  lemma UnquoteHoldsNoLineFeed(value: string)
    requires '\n' !in value
    ensures '\n' !in ShellUnquote(value)
  {
    hide Trim, Replace, IsWhitespace;
    TrimIsTight(value);
    var trimmed := Trim(value);
    if IsQuoted(trimmed) { ReplaceAddsOnly(trimmed[1..|trimmed| - 1], ESCAPED_QUOTE, QUOTE); }
  }

  lemma {:induction false} AssignmentsHoldNoLineFeed(lines: seq<string>)
    requires forall line :: line in lines ==> '\n' !in line
    ensures HoldsNoLineFeed(Assignments(lines))
  {
    hide ReadLine;
    if lines != [] {
      AssignmentsHoldNoLineFeed(lines[..|lines| - 1]);
      ReadLineHoldsNoLineFeed(lines[|lines| - 1]);
    }
  }

  lemma FileHoldsNoLineFeed(contents: string)
    ensures HoldsNoLineFeed(Assignments(Lines(contents)))
  {
    hide Lines, Assignments;
    LinesHoldNoLineFeed(contents);
    AssignmentsHoldNoLineFeed(Lines(contents));
  }

  predicate HaveDistinctKeys(entries: seq<Entry>)
  {
    forall i, j :: 0 <= i < j < |entries| ==> entries[i].Meaning().Keys !! entries[j].Meaning().Keys
  }

  lemma {:induction false} DistinctAreMeant(entries: seq<Entry>, i: nat)
    requires HaveDistinctKeys(entries) && i < |entries|
    ensures entries[i].Meaning().Keys <= Meant(entries).Keys
    ensures forall key :: key in entries[i].Meaning() ==> Meant(entries)[key] == entries[i].Meaning()[key]
    decreases i
  {
    hide Entry.Meaning;
    if i == 0 { LaterMeanOthers(entries); } else { DistinctAreMeant(entries[1..], i - 1); }
  }

  lemma LaterMeanOthers(entries: seq<Entry>)
    requires HaveDistinctKeys(entries) && entries != []
    ensures entries[0].Meaning().Keys !! Meant(entries[1..]).Keys
  {
    hide Entry.Meaning;
    forall key | key in Meant(entries[1..]) ensures key !in entries[0].Meaning()
    {
      var j := SomeoneMeans(entries[1..], key);
      assert entries[1..][j] == entries[j + 1];
    }
  }

  lemma {:induction false} SomeoneMeans(entries: seq<Entry>, key: string) returns (j: nat)
    requires key in Meant(entries)
    ensures j < |entries| && key in entries[j].Meaning()
  {
    hide Entry.Meaning;
    if key in entries[0].Meaning() {
      j := 0;
    } else {
      j := SomeoneMeans(entries[1..], key);
      j := j + 1;
    }
  }

  /**
   With a key to each setting, the file reads back as it was meant if and only if no key or value holds a line feed:
   a line has no escape for one.
   */
  lemma EnvFileReadsBackIff(entries: seq<Entry>)
    requires (forall entry :: entry in entries ==> entry.IsSayable() && (entry.Comment? ==> entry.IsOneLine()))
    requires HaveDistinctKeys(entries)
    ensures Assignments(Lines(Render(entries))) == Meant(entries) <==> forall entry :: entry in entries ==> entry.IsOneLine()
  {
    hide Render, Lines, Assignments, Meant, Entry.IsSayable, HaveDistinctKeys;
    if forall entry :: entry in entries ==> entry.IsOneLine() {
      EnvFileReadsBack(entries);
    } else {
      var entry :| entry in entries && !entry.IsOneLine();
      var i :| 0 <= i < |entries| && entries[i] == entry;
      DistinctAreMeant(entries, i);
      FileHoldsNoLineFeed(Render(entries));
      var key := entry.key;
      assert key in entry.Meaning();
    }
  }

  // ---- The identity env file ----------------------------------------------------------

  const TITLE := "dent8 signed" + " source identity" + " environment"
  const TRUST := "DENT8_TRUST"
  const ACTIVE_GRANTS := "DENT8_ACTIVE" + "_GRANTS"
  const REQUIRE_IDENTITY := "DENT8_REQUIRE" + "_IDENTITY"
  const GRANT := "DENT8_GRANT"
  const IDENTITY_KEY := "DENT8_IDENTITY" + "_KEY"

  function LoadWith(envFile: string): Entry { Comment("Load with:" + " set -a; . " + ShellQuote(envFile) + "; set +a") }

  function Settings(trust: string, active: string, grant: string, key: string): seq<Entry>
  {
    [Quoted(TRUST, trust), Quoted(ACTIVE_GRANTS, active), Bare(REQUIRE_IDENTITY, "1"), Quoted(GRANT, grant), Quoted(IDENTITY_KEY, key)]
  }

  /** The identity env file, as `write_identity_env` lays it out. */
  function IdentityEnv(envFile: string, trust: string, active: string, grant: string, key: string): seq<Entry>
  {
    [Comment(TITLE), LoadWith(envFile)] + Settings(trust, active, grant, key)
  }

  lemma IsUpperKey(key: string)
    requires forall i :: 0 <= i < |key| ==> 'A' <= key[i] <= 'Z' || '0' <= key[i] <= '9' || key[i] == '_'
    ensures IsKey(key) && '\n' !in key
  {
  }

  lemma KeysAreKeys()
    ensures IsKey(TRUST) && IsKey(ACTIVE_GRANTS) && IsKey(REQUIRE_IDENTITY) && IsKey(GRANT) && IsKey(IDENTITY_KEY)
    ensures '\n' !in TRUST && '\n' !in ACTIVE_GRANTS && '\n' !in REQUIRE_IDENTITY && '\n' !in GRANT && '\n' !in IDENTITY_KEY
  {
    hide IsKey;
    IsUpperKey(TRUST);
    IsUpperKey(ACTIVE_GRANTS);
    IsUpperKey(REQUIRE_IDENTITY);
    IsUpperKey(GRANT);
    IsUpperKey(IDENTITY_KEY);
  }

  lemma KeysAreDistinct()
    ensures |TRUST| == 11 && |ACTIVE_GRANTS| == 19 && |REQUIRE_IDENTITY| == 22 && |GRANT| == 11 && |IDENTITY_KEY| == 18
    ensures TRUST != GRANT
  {
    assert TRUST[6] == 'T' && GRANT[6] == 'G';
  }

  lemma FlagIsSayable()
    requires IsKey(REQUIRE_IDENTITY) && '\n' !in REQUIRE_IDENTITY
    ensures Bare(REQUIRE_IDENTITY, "1").IsSayable() && Bare(REQUIRE_IDENTITY, "1").IsOneLine()
  {
    hide IsKey, REQUIRE_IDENTITY;
  }

  lemma SettingsAreSayable(trust: string, active: string, grant: string, key: string)
    ensures forall entry :: entry in Settings(trust, active, grant, key) ==> entry.IsSayable() && !entry.Comment?
    ensures HaveDistinctKeys(Settings(trust, active, grant, key))
    ensures (forall entry :: entry in Settings(trust, active, grant, key) ==> entry.IsOneLine()) <==>
            '\n' !in trust && '\n' !in active && '\n' !in grant && '\n' !in key
  {
    KeysAreKeys();
    KeysAreDistinct();
    FlagIsSayable();
    hide IsKey, IsQuoted, TRUST, ACTIVE_GRANTS, REQUIRE_IDENTITY, GRANT, IDENTITY_KEY;
    var e := Settings(trust, active, grant, key);
    FiveEntries(e);
    assert e[0] == Quoted(TRUST, trust) && e[1] == Quoted(ACTIVE_GRANTS, active) && e[2] == Bare(REQUIRE_IDENTITY, "1");
    assert e[3] == Quoted(GRANT, grant) && e[4] == Quoted(IDENTITY_KEY, key);
    assert e[2].IsOneLine() && (e[0].IsOneLine() <==> '\n' !in trust) && (e[1].IsOneLine() <==> '\n' !in active);
    assert (e[3].IsOneLine() <==> '\n' !in grant) && (e[4].IsOneLine() <==> '\n' !in key);
  }

  lemma FiveEntries(e: seq<Entry>)
    requires |e| == 5
    ensures forall entry :: entry in e <==> entry == e[0] || entry == e[1] || entry == e[2] || entry == e[3] || entry == e[4]
  {
  }

  lemma SettingsAreMeant(trust: string, active: string, grant: string, key: string)
    ensures Meant(Settings(trust, active, grant, key)) ==
            map[TRUST := trust, ACTIVE_GRANTS := active, REQUIRE_IDENTITY := "1", GRANT := grant, IDENTITY_KEY := key]
  {
    hide TRUST, ACTIVE_GRANTS, REQUIRE_IDENTITY, GRANT, IDENTITY_KEY, Meant;
    var one, two := map[TRUST := trust], map[TRUST := trust, ACTIVE_GRANTS := active];
    var three := two[REQUIRE_IDENTITY := "1"];
    OneMore(one, ACTIVE_GRANTS, active);
    OneMore(two, REQUIRE_IDENTITY, "1");
    OneMore(three, GRANT, grant);
    OneMore(three[GRANT := grant], IDENTITY_KEY, key);
    MeantFive(Quoted(TRUST, trust), Quoted(ACTIVE_GRANTS, active), Bare(REQUIRE_IDENTITY, "1"), Quoted(GRANT, grant), Quoted(IDENTITY_KEY, key));
  }

  lemma MeantFive(a: Entry, b: Entry, c: Entry, d: Entry, e: Entry)
    ensures Meant([a, b, c, d, e]) == a.Meaning() + b.Meaning() + c.Meaning() + d.Meaning() + e.Meaning()
  {
    hide Entry.Meaning, Meant;
    MeantStep(e, []);
    MeantStep(d, [e]);
    MeantStep(c, [d, e]);
    MeantStep(b, [c, d, e]);
    MeantStep(a, [b, c, d, e]);
    NothingMeant();
    assert [e] + [] == [e] && [d] + [e] == [d, e] && [c] + [d, e] == [c, d, e] && [b] + [c, d, e] == [b, c, d, e];
    assert [a] + [b, c, d, e] == [a, b, c, d, e];
    assert e.Meaning() + map[] == e.Meaning();
    Overlay(a.Meaning(), b.Meaning(), c.Meaning() + (d.Meaning() + e.Meaning()));
    Overlay(a.Meaning() + b.Meaning(), c.Meaning(), d.Meaning() + e.Meaning());
    Overlay(a.Meaning() + b.Meaning() + c.Meaning(), d.Meaning(), e.Meaning());
  }

  lemma Overlay(x: map<string, string>, y: map<string, string>, z: map<string, string>)
    ensures x + (y + z) == x + y + z
  {
  }

  lemma OneMore(env: map<string, string>, key: string, value: string)
    ensures env + map[key := value] == env[key := value]
  {
  }

  lemma MeantStep(entry: Entry, rest: seq<Entry>)
    ensures Meant([entry] + rest) == entry.Meaning() + Meant(rest)
  {
    hide Entry.Meaning;
    assert ([entry] + rest)[1..] == rest;
  }

  lemma NothingMeant()
    ensures Meant([]) == map[]
  {
  }

  lemma TitleSaysNothing()
    ensures Comment(TITLE).Says() == map[]
  {
    TitleIsOneLine();
    hide TITLE, Assignments, Lines;
    OneLineSays(Comment(TITLE));
  }

  lemma TitleIsOneLine()
    ensures '\n' !in TITLE
  {
    assert '\n' !in "dent8 signed" && '\n' !in " source identity" && '\n' !in " environment";
  }

  /**
   The identity file reads back to its five settings if and only if no path holds a line feed; a line feed in the
   name of the file itself, which stands in a comment, does no harm unless the lines it makes assign another key.
   */
  lemma IdentityEnvReadsBackIff(envFile: string, trust: string, active: string, grant: string, key: string)
    ensures var meant := map[TRUST := trust, ACTIVE_GRANTS := active, REQUIRE_IDENTITY := "1", GRANT := grant, IDENTITY_KEY := key];
            Assignments(Lines(Render(IdentityEnv(envFile, trust, active, grant, key)))) == meant <==>
            && '\n' !in trust && '\n' !in active && '\n' !in grant && '\n' !in key
            && LoadWith(envFile).Says().Keys <= meant.Keys
    ensures '\n' !in envFile ==> LoadWith(envFile).Says() == map[]
  {
    hide Render, Lines, Assignments, Meant, HaveDistinctKeys, Entry.Says, LoadWith, TITLE, TRUST, ACTIVE_GRANTS, REQUIRE_IDENTITY, GRANT;
    hide IDENTITY_KEY, Settings, Entry.IsSayable, Entry.IsOneLine;
    var settings, meant := Settings(trust, active, grant, key), Meant(Settings(trust, active, grant, key));
    if '\n' !in envFile { LoadWithSaysNothing(envFile); }
    SettingsAreSayable(trust, active, grant, key);
    SettingsAreMeant(trust, active, grant, key);
    EnvFileReadsBackIff(settings);
    EachIsSaid(settings);
    var said, loads := Said(settings), LoadWith(envFile).Says();
    TitleSaysNothing();
    IdentityEnvSays(envFile, settings);
    EachIsSaid([Comment(TITLE), LoadWith(envFile)] + settings);
    assert IdentityEnv(envFile, trust, active, grant, key) == [Comment(TITLE), LoadWith(envFile)] + settings;
    FileHoldsNoLineFeed(Render(IdentityEnv(envFile, trust, active, grant, key)));
    if '\n' in trust || '\n' in active || '\n' in grant || '\n' in key {
      FiveKeysHold(trust, active, grant, key);
    } else if loads.Keys <= meant.Keys {
      assert loads + meant == meant;
    } else {
      var other :| other in loads && other !in meant;
      assert other in loads + meant;
    }
  }

  lemma IdentityEnvSays(envFile: string, settings: seq<Entry>)
    requires Comment(TITLE).Says() == map[]
    ensures Said([Comment(TITLE), LoadWith(envFile)] + settings) == LoadWith(envFile).Says() + Said(settings)
  {
    hide TITLE, LoadWith, Entry.Says;
    var entries := [Comment(TITLE), LoadWith(envFile)] + settings;
    assert entries[1..][1..] == settings && entries[1..][0] == LoadWith(envFile);
    assert Said(entries[1..]) == LoadWith(envFile).Says() + Said(settings);
  }

  lemma FiveKeysHold(trust: string, active: string, grant: string, key: string)
    requires '\n' in trust || '\n' in active || '\n' in grant || '\n' in key
    ensures !HoldsNoLineFeed(map[TRUST := trust, ACTIVE_GRANTS := active, REQUIRE_IDENTITY := "1", GRANT := grant, IDENTITY_KEY := key])
  {
    KeysAreDistinct();
    hide TRUST, ACTIVE_GRANTS, REQUIRE_IDENTITY, GRANT, IDENTITY_KEY;
    var env := map[TRUST := trust, ACTIVE_GRANTS := active, REQUIRE_IDENTITY := "1", GRANT := grant, IDENTITY_KEY := key];
    assert env[TRUST] == trust && env[ACTIVE_GRANTS] == active && env[GRANT] == grant && env[IDENTITY_KEY] == key;
  }

  lemma LoadWithSaysNothing(envFile: string)
    requires '\n' !in envFile
    ensures LoadWith(envFile).Says() == map[]
  {
    QuotingKeepsLineFeedOut(envFile);
    LoadTextIsOneLine(ShellQuote(envFile));
    hide ShellQuote, Assignments, Lines;
    OneLineSays(LoadWith(envFile));
  }

  lemma LoadTextIsOneLine(quoted: string)
    requires '\n' !in quoted
    ensures '\n' !in "Load with:" + " set -a; . " + quoted + "; set +a"
  {
    assert '\n' !in "Load with:" && '\n' !in " set -a; . " && '\n' !in "; set +a";
  }

  lemma QuotingKeepsLineFeedOut(value: string)
    requires '\n' !in value
    ensures '\n' !in ShellQuote(value)
  {
    hide Replace;
    ReplaceKeepsLineFeedOut(value);
  }
}
