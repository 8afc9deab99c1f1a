/** The printer for `registries.yaml` and a reader for the block of double-quoted scalars it emits. */
module RegistriesYaml {
  import opened Wrappers

  // ----- Double-quoted scalars -----

  function Replaced(s: string, c: char, sub: string): string {
    if s == [] then [] else (if s[0] == c then sub else [s[0]]) + Replaced(s[1..], c, sub)
  }

  /** The four replacements, one after the other. */
  function Escaped(s: string): string {
    Replaced(Replaced(Replaced(Replaced(s, '\\', "\\\\"), '"', "\\\""), '\n', "\\n"), '\r', "\\r")
  }

  function Quoted(s: string): string {
    "\"" + Escaped(s) + "\""
  }

  function EscapedChar(c: char): string {
    if c == '\\' then "\\\\" else if c == '"' then "\\\"" else if c == '\n' then "\\n" else if c == '\r' then "\\r" else [c]
  }

  lemma ReplacedCons(d: char, s: string, c: char, sub: string)
    ensures Replaced([d] + s, c, sub) == (if d == c then sub else [d]) + Replaced(s, c, sub)
  {
    assert ([d] + s)[1..] == s;
  }

  lemma ReplacedNothing(c: char, sub: string)
    ensures Replaced("", c, sub) == ""
  {
  }

  lemma {:induction false} ReplacedAppend(a: string, b: string, c: char, sub: string)
    ensures Replaced(a + b, c, sub) == Replaced(a, c, sub) + Replaced(b, c, sub)
    decreases |a|
  {
    hide Replaced;
    if a == [] {
      ReplacedNothing(c, sub);
      assert a + b == b;
    } else {
      var d, tail := a[0], a[1..];
      assert a == [d] + tail;
      Regroup([d], tail, b);
      ReplacedCons(d, tail, c, sub);
      ReplacedCons(d, tail + b, c, sub);
      ReplacedAppend(tail, b, c, sub);
      Regroup(if d == c then sub else [d], Replaced(tail, c, sub), Replaced(b, c, sub));
    }
  }

  lemma ReplacedOne(d: char, c: char, sub: string)
    ensures Replaced([d], c, sub) == if d == c then sub else [d]
  {
  }

  lemma EscapedAppend(a: string, b: string)
    ensures Escaped(a + b) == Escaped(a) + Escaped(b)
  {
    hide Replaced;
    var a1, b1 := Replaced(a, '\\', "\\\\"), Replaced(b, '\\', "\\\\");
    var a2, b2 := Replaced(a1, '"', "\\\""), Replaced(b1, '"', "\\\"");
    var a3, b3 := Replaced(a2, '\n', "\\n"), Replaced(b2, '\n', "\\n");
    ReplacedAppend(a, b, '\\', "\\\\");
    ReplacedAppend(a1, b1, '"', "\\\"");
    ReplacedAppend(a2, b2, '\n', "\\n");
    ReplacedAppend(a3, b3, '\r', "\\r");
  }

  lemma ReplacedTwo(d: char, e: char, c: char, sub: string)
    requires d != c && e != c
    ensures Replaced([d, e], c, sub) == [d, e]
  {
    assert [d, e][1..] == [e];
    ReplacedOne(e, c, sub);
  }

  lemma ReplacedBackslashes()
    ensures Replaced("\\\\", '"', "\\\"") == "\\\\"
    ensures Replaced("\\\\", '\n', "\\n") == "\\\\"
    ensures Replaced("\\\\", '\r', "\\r") == "\\\\"
  {
    ReplacedTwo('\\', '\\', '"', "\\\"");
    ReplacedTwo('\\', '\\', '\n', "\\n");
    ReplacedTwo('\\', '\\', '\r', "\\r");
  }

  /** No replacement touches what an earlier one wrote. */
  lemma EscapedOne(c: char)
    ensures Escaped([c]) == EscapedChar(c)
  {
    hide Replaced;
    ReplacedOne(c, '\\', "\\\\");
    ReplacedOne(c, '"', "\\\"");
    ReplacedOne(c, '\n', "\\n");
    ReplacedOne(c, '\r', "\\r");
    ReplacedBackslashes();
    ReplacedTwo('\\', '"', '\n', "\\n");
    ReplacedTwo('\\', '"', '\r', "\\r");
    ReplacedTwo('\\', 'n', '\r', "\\r");
  }

  lemma EscapedEmpty()
    ensures Escaped("") == ""
  {
  }

  /** Sequential replacement is a per-character map. */
  lemma EscapedCons(c: char, s: string)
    ensures Escaped([c] + s) == EscapedChar(c) + Escaped(s)
  {
    EscapedAppend([c], s);
    EscapedOne(c);
  }

  // ----- Reading a double-quoted scalar: sections 5.7 and 7.3.1 of YAML 1.2.2 -----

  /** The one-character escapes; the hexadecimal ones and escaped line breaks are declined. */
  function EscapeValue(c: char): Option<char> {
    if c == '0' then Some('\U{0}')
    else if c == 'a' then Some('\U{7}')
    else if c == 'b' then Some('\U{8}')
    else if c == 't' || c == '\t' then Some('\t')
    else if c == 'n' then Some('\n')
    else if c == 'v' then Some('\U{B}')
    else if c == 'f' then Some('\U{C}')
    else if c == 'r' then Some('\r')
    else if c == 'e' then Some('\U{1B}')
    else if c == ' ' || c == '"' || c == '/' || c == '\\' then Some(c)
    else if c == 'N' then Some('\U{85}')
    else if c == '_' then Some('\U{A0}')
    else if c == 'L' then Some('\U{2028}')
    else if c == 'P' then Some('\U{2029}')
    else None
  }

  /** The table of section 5.7 by character codes, in the order of the standard. */
  lemma EscapesPlainly(i: nat, c: char)
    ensures var names, codes := "0abt\tnvfre \"/\\N_LP", [0, 7, 8, 9, 9, 10, 11, 12, 13, 27, 32, 34, 47, 92, 133, 160, 8232, 8233];
            && |names| == |codes|
            && (i < |codes| ==> EscapeValue(names[i]).Some? && EscapeValue(names[i]).value as int == codes[i])
            && (c !in names ==> EscapeValue(c).None?)
  {}

  /** A character that may stand for itself in the scalar (`nb-json`). */
  predicate IsLiteral(c: char) {
    c == '\t' || c >= ' '
  }

  datatype Scalar = Scalar(value: string, rest: string)

  function Put(c: Option<char>, tail: Option<Scalar>): Option<Scalar> {
    if c.None? || tail.None? then None else Some(Scalar([c.value] + tail.value.value, tail.value.rest))
  }

  /** The text after the opening quote, up to the closing one. */
  function ReadScalar(text: string): Option<Scalar>
    decreases |text|
  {
    if text == [] then None
    else if text[0] == '"' then Some(Scalar("", text[1..]))
    else if text[0] == '\\' then
      if |text| == 1 then None else Put(EscapeValue(text[1]), ReadScalar(text[2..]))
    else Put(if IsLiteral(text[0]) then Some(text[0]) else None, ReadScalar(text[1..]))
  }

  predicate IsPrintableChar(c: char) {
    c == '\n' || c == '\r' || IsLiteral(c)
  }

  predicate IsPrintable(s: string) {
    forall i :: 0 <= i < |s| ==> IsPrintableChar(s[i])
  }

  /** Which strings can be written, by character codes: tab, newline, carriage return and everything from
      the space up. */
  lemma PrintablePlainly(s: string)
    ensures IsPrintable(s) <==>
              forall i :: 0 <= i < |s| ==> s[i] as int == 9 || s[i] as int == 10 || s[i] as int == 13 || s[i] as int >= 32
  {
  }

  lemma ReadEscapedChar(c: char, text: string)
    ensures ReadScalar(EscapedChar(c) + text) == Put(if IsPrintableChar(c) then Some(c) else None, ReadScalar(text))
  {
    var s := EscapedChar(c) + text;
    if |EscapedChar(c)| == 2 {
      assert s[2..] == text;
    } else {
      assert s[1..] == text;
    }
  }

  lemma ReadClosing(rest: string)
    ensures ReadScalar("\"" + rest) == Some(Scalar("", rest))
  {
    assert ("\"" + rest)[1..] == rest;
  }

  lemma PrintableCons(c: char, s: string)
    ensures IsPrintable([c] + s) <==> IsPrintableChar(c) && IsPrintable(s)
  {
    var t := [c] + s;
    assert t[0] == c;
    assert forall i :: 0 <= i < |s| ==> t[i + 1] == s[i];
  }

  /** A quoted string reads back, and nothing more, exactly when every character is allowed in a scalar. */
  lemma {:induction false} QuotedReadsBackIff(s: string, rest: string)
    ensures ReadScalar(Escaped(s) + ("\"" + rest)) == if IsPrintable(s) then Some(Scalar(s, rest)) else None
    decreases |s|
  {
    hide ReadScalar, Escaped, EscapedChar, IsPrintable, IsPrintableChar;
    if s == [] {
      EscapedEmpty();
      ReadClosing(rest);
      assert Escaped(s) + ("\"" + rest) == "\"" + rest;
      PrintableEmpty();
    } else {
      var c, tail := s[0], s[1..];
      assert s == [c] + tail;
      EscapedCons(c, tail);
      Regroup(EscapedChar(c), Escaped(tail), "\"" + rest);
      QuotedReadsBackIff(tail, rest);
      ReadEscapedChar(c, Escaped(tail) + ("\"" + rest));
      PrintableCons(c, tail);
    }
  }

  lemma PrintableEmpty()
    ensures IsPrintable("")
  {
  }

  lemma {:induction false} EscapedHasNoBreak(s: string)
    ensures '\n' !in Escaped(s) && '\r' !in Escaped(s)
    decreases |s|
  {
    hide Escaped;
    if s == [] {
      EscapedEmpty();
    } else {
      assert s == [s[0]] + s[1..];
      EscapedCons(s[0], s[1..]);
      EscapedHasNoBreak(s[1..]);
    }
  }

  // ----- Printing -----

  datatype Registry = Registry(
    name: string,
    url: string,
    subpath: string,
    description: Option<string>,
    visible: Option<bool>,
    tuningSubpath: Option<string>,
    benchmarkSubpath: Option<string>,
    modsSubpath: Option<string>)

  function Field(key: string, value: string): string {
    key + ": " + Quoted(value)
  }

  function OptionalLine(key: string, value: Option<string>): seq<string> {
    if value.None? then [] else ["  " + Field(key, value.value)]
  }

  function VisibleLine(visible: Option<bool>): seq<string> {
    if visible == Some(false) then ["  visible: false"] else []
  }

  function Extras(r: Registry): seq<string> {
    OptionalLine("description", r.description)
    + (VisibleLine(r.visible)
       + (OptionalLine("tuning_subpath", r.tuningSubpath)
          + (OptionalLine("benchmark_subpath", r.benchmarkSubpath)
             + OptionalLine("mods_subpath", r.modsSubpath))))
  }

  function Required(r: Registry): seq<string> {
    ["- " + Field("name", r.name), "  " + Field("url", r.url), "  " + Field("subpath", r.subpath)]
  }

  function RegistryLines(r: Registry): seq<string> {
    Required(r) + Extras(r)
  }

  lemma PushedRequired(lines: seq<string>, r: Registry)
    ensures lines + ["- " + Field("name", r.name)] + ["  " + Field("url", r.url)] + ["  " + Field("subpath", r.subpath)]
         == lines + Required(r)
  {
  }

  /** `if (value != null) lines.push(...)`. */
  method PushOptional(lines: seq<string>, key: string, value: Option<string>) returns (pushed: seq<string>)
    ensures pushed == lines + OptionalLine(key, value)
  {
    pushed := lines;
    if value.Some? {
      pushed := lines + ["  " + Field(key, value.value)];
    }
  }

  lemma PushedVisible(lines: seq<string>, visible: Option<bool>)
    ensures lines + VisibleLine(visible) == if visible == Some(false) then lines + ["  visible: false"] else lines
  {
  }

  lemma PushedInOrder(lines: seq<string>, r: Registry)
    ensures lines + Required(r) + OptionalLine("description", r.description) + VisibleLine(r.visible)
            + OptionalLine("tuning_subpath", r.tuningSubpath) + OptionalLine("benchmark_subpath", r.benchmarkSubpath)
            + OptionalLine("mods_subpath", r.modsSubpath)
         == lines + RegistryLines(r)
  {
    hide OptionalLine, VisibleLine, Required;
  }

  function BodyLines(registries: seq<Registry>): seq<string> {
    if registries == [] then [] else RegistryLines(registries[0]) + BodyLines(registries[1..])
  }

  /** Every line followed by a newline. */
  function Terminated(lines: seq<string>): string {
    if lines == [] then "" else lines[0] + "\n" + Terminated(lines[1..])
  }

  function Document(registries: seq<Registry>): string {
    if registries == [] then "registries: []\n" else Terminated(["registries:"] + BodyLines(registries))
  }

  lemma {:induction false} JoinedIsTerminated(lines: seq<string>)
    requires lines != []
    ensures Joined(lines, "\n") + "\n" == Terminated(lines)
    decreases |lines|
  {
    if |lines| == 1 {
      assert Terminated(lines[1..]) == "";
    } else {
      JoinedIsTerminated(lines[1..]);
      Regroup(lines[0] + "\n", Joined(lines[1..], "\n"), "\n");
    }
  }

  lemma {:induction false} BodySnoc(registries: seq<Registry>, r: Registry)
    ensures BodyLines(registries + [r]) == BodyLines(registries) + RegistryLines(r)
    decreases |registries|
  {
    hide RegistryLines;
    if registries == [] {
      assert registries + [r] == [r] && [r][1..] == [];
      assert BodyLines([]) == [];
    } else {
      var all := registries + [r];
      assert all[0] == registries[0] && all[1..] == registries[1..] + [r];
      BodySnoc(registries[1..], r);
    }
  }

  lemma EmptyDocument()
    ensures Document([]) == "registries: []\n" && BodyLines([]) == []
  {
  }

  lemma NonEmptyDocument(registries: seq<Registry>)
    requires registries != []
    ensures Document(registries) == Terminated(["registries:"] + BodyLines(registries))
  {
  }

  method RenderRegistriesYaml(registries: seq<Registry>) returns (text: string)
    ensures text == Document(registries)
  {
    hide *;
    if registries == [] {
      EmptyDocument();
      return "registries: []\n";
    }
    var lines := ["registries:"];
    EmptyDocument();
    assert registries[..0] == [];
    assert lines == ["registries:"] + BodyLines([]);
    for i := 0 to |registries|
      invariant lines != [] && lines == ["registries:"] + BodyLines(registries[..i])
    {
      var r := registries[i];
      PushedInOrder(lines, r);
      PushedRequired(lines, r);
      lines := lines + ["- " + Field("name", r.name)];
      lines := lines + ["  " + Field("url", r.url)];
      lines := lines + ["  " + Field("subpath", r.subpath)];
      lines := PushOptional(lines, "description", r.description);
      PushedVisible(lines, r.visible);
      if r.visible == Some(false) {
        lines := lines + ["  visible: false"];
      }
      lines := PushOptional(lines, "tuning_subpath", r.tuningSubpath);
      lines := PushOptional(lines, "benchmark_subpath", r.benchmarkSubpath);
      lines := PushOptional(lines, "mods_subpath", r.modsSubpath);
      assert registries[..i + 1] == registries[..i] + [r];
      BodySnoc(registries[..i], r);
      Regroup(["registries:"], BodyLines(registries[..i]), RegistryLines(r));
    }
    assert registries[..|registries|] == registries;
    JoinedIsTerminated(lines);
    NonEmptyDocument(registries);
    text := Joined(lines, "\n") + "\n";
  }

  // ----- Reading the document -----

  /** The lines of a text, when each is ended by a line break. */
  function Lines(text: string, line: string): Option<seq<string>>
    decreases |text|
  {
    if text == [] then
      if line == "" then Some([]) else None
    else if text[0] == '\n' || text[0] == '\r' then
      var more := Lines(text[1..], "");
      if more.None? then None else Some([line] + more.value)
    else Lines(text[1..], line + [text[0]])
  }

  predicate IsKeyChar(c: char) {
    'a' <= c <= 'z' || c == '_'
  }

  function KeyLength(text: string): (n: nat)
    ensures n <= |text|
  {
    if text == [] || !IsKeyChar(text[0]) then 0 else 1 + KeyLength(text[1..])
  }

  datatype Value = Text(text: string) | False

  type Entry = map<string, Value>

  /** What follows `key: `: one double-quoted scalar and nothing after it, or the plain scalar `false`. */
  function ReadValue(text: string): Option<Value> {
    if text == "false" then Some(False)
    else if text == [] || text[0] != '"' then None
    else
      var scalar := ReadScalar(text[1..]);
      if scalar.None? || scalar.value.rest != [] then None else Some(Text(scalar.value.value))
  }

  /** Adds `key: value` to a mapping that does not hold the key yet. */
  function ReadField(text: string, entry: Entry): Option<Entry> {
    var n := KeyLength(text);
    var key := text[..n];
    if |text| < n + 2 || text[n] != ':' || text[n + 1] != ' ' || key in entry then None
    else
      var value := ReadValue(text[n + 2..]);
      if value.None? then None else Some(entry[key := value.value])
  }

  predicate Dashed(line: string) {
    |line| >= 2 && line[0] == '-' && line[1] == ' '
  }

  predicate Indented(line: string) {
    |line| >= 2 && line[0] == ' ' && line[1] == ' '
  }

  /** A block sequence of mappings, `entry` being the one under construction. */
  function Entries(lines: seq<string>, entry: Entry): Option<seq<Entry>> {
    if lines == [] then Some([entry])
    else if Indented(lines[0]) then
      var grown := ReadField(lines[0][2..], entry);
      if grown.None? then None else Entries(lines[1..], grown.value)
    else if Dashed(lines[0]) then
      var first := ReadField(lines[0][2..], map[]);
      if first.None? then None
      else
        var more := Entries(lines[1..], first.value);
        if more.None? then None else Some([entry] + more.value)
    else None
  }

  /** A block sequence with at least one item. */
  function Block(lines: seq<string>): Option<seq<Entry>> {
    if lines == [] || !Dashed(lines[0]) then None
    else
      var first := ReadField(lines[0][2..], map[]);
      if first.None? then None else Entries(lines[1..], first.value)
  }

  function ReadEntries(text: string): Option<seq<Entry>> {
    var lines := Lines(text, "");
    if lines.None? then None
    else if lines.value == ["registries: []"] then Some([])
    else if lines.value == [] || lines.value[0] != "registries:" then None
    else Block(lines.value[1..])
  }

  function Optional(entry: Entry, key: string): Option<string> {
    if key in entry && entry[key].Text? then Some(entry[key].text) else None
  }

  predicate IsRegistry(entry: Entry) {
    forall key :: key in {"name", "url", "subpath"} ==> key in entry && entry[key].Text?
  }

  /** An absent `visible` means visible. */
  function ToRegistry(entry: Entry): Registry
    requires IsRegistry(entry)
  {
    Registry(entry["name"].text, entry["url"].text, entry["subpath"].text,
             Optional(entry, "description"),
             Some(!Hidden(entry)),
             Optional(entry, "tuning_subpath"),
             Optional(entry, "benchmark_subpath"),
             Optional(entry, "mods_subpath"))
  }

  function ToRegistries(entries: seq<Entry>): Option<seq<Registry>> {
    if entries == [] then Some([])
    else
      var more := ToRegistries(entries[1..]);
      if !IsRegistry(entries[0]) || more.None? then None else Some([ToRegistry(entries[0])] + more.value)
  }

  function ReadRegistries(text: string): Option<seq<Registry>> {
    var entries := ReadEntries(text);
    if entries.None? then None else ToRegistries(entries.value)
  }

  // ----- Lines come back -----

  predicate Unbroken(line: string) {
    '\n' !in line && '\r' !in line
  }

  lemma {:induction false} LinesFront(line: string, rest: string, front: string)
    requires Unbroken(line)
    ensures Lines(line + ("\n" + rest), front) ==
            if Lines(rest, "").None? then None else Some([front + line] + Lines(rest, "").value)
    decreases |line|
  {
    var text := line + ("\n" + rest);
    if line == [] {
      assert text[0] == '\n' && text[1..] == rest && front + line == front;
    } else {
      LinesFront(line[1..], rest, front + [line[0]]);
      assert text[1..] == line[1..] + ("\n" + rest);
      assert front + [line[0]] + line[1..] == front + line;
    }
  }

  lemma {:induction false} LinesOfTerminated(lines: seq<string>)
    requires forall i :: 0 <= i < |lines| ==> Unbroken(lines[i])
    ensures Lines(Terminated(lines), "") == Some(lines)
    decreases |lines|
  {
    if lines != [] {
      LinesOfTerminated(lines[1..]);
      LinesFront(lines[0], Terminated(lines[1..]), "");
      Regroup(lines[0], "\n", Terminated(lines[1..]));
      assert "" + lines[0] == lines[0] && [lines[0]] + lines[1..] == lines;
    }
  }

  predicate IsKey(key: string) {
    forall i :: 0 <= i < |key| ==> IsKeyChar(key[i])
  }

  lemma KeyPlainly(key: string)
    ensures IsKey(key) <==> forall i :: 0 <= i < |key| ==> 97 <= key[i] as int <= 122 || key[i] as int == 95
  {}

  predicate AllUnbroken(lines: seq<string>) {
    forall i :: 0 <= i < |lines| ==> Unbroken(lines[i])
  }

  lemma FieldUnbroken(key: string, value: string)
    requires IsKey(key)
    ensures Unbroken("  " + Field(key, value)) && Unbroken("- " + Field(key, value))
  {
    hide Escaped;
    EscapedHasNoBreak(value);
  }

  lemma PlainKeys()
    ensures IsKey("name") && IsKey("url") && IsKey("subpath") && IsKey("description")
    ensures IsKey("tuning_subpath") && IsKey("benchmark_subpath") && IsKey("mods_subpath")
  {
  }

  lemma OptionalUnbroken(key: string, value: Option<string>)
    requires IsKey(key)
    ensures AllUnbroken(OptionalLine(key, value))
  {
    if value.Some? {
      FieldUnbroken(key, value.value);
    }
  }

  lemma RegistryUnbroken(r: Registry)
    ensures AllUnbroken(RegistryLines(r))
  {
    hide IsKey, Unbroken, Field, OptionalLine, VisibleLine;
    PlainKeys();
    FieldUnbroken("name", r.name);
    FieldUnbroken("url", r.url);
    FieldUnbroken("subpath", r.subpath);
    OptionalUnbroken("description", r.description);
    OptionalUnbroken("tuning_subpath", r.tuningSubpath);
    OptionalUnbroken("benchmark_subpath", r.benchmarkSubpath);
    OptionalUnbroken("mods_subpath", r.modsSubpath);
    VisibleUnbroken(r.visible);
  }

  lemma VisibleUnbroken(visible: Option<bool>)
    ensures AllUnbroken(VisibleLine(visible))
  {
  }

  lemma {:induction false} BodyUnbroken(registries: seq<Registry>)
    ensures AllUnbroken(BodyLines(registries))
    decreases |registries|
  {
    hide RegistryLines, Unbroken;
    if registries != [] {
      RegistryUnbroken(registries[0]);
      BodyUnbroken(registries[1..]);
    }
  }

  // ----- Fields come back -----

  lemma {:induction false} KeyLengthOf(key: string, rest: string)
    requires IsKey(key)
    ensures KeyLength(key + (": " + rest)) == |key|
    decreases |key|
  {
    var text := key + (": " + rest);
    if key == [] {
      assert text[0] == ':';
    } else {
      assert text[0] == key[0] && text[1..] == key[1..] + (": " + rest);
      KeyLengthOf(key[1..], rest);
    }
  }

  lemma ReadQuotedValue(value: string)
    ensures ReadValue(Quoted(value)) == if IsPrintable(value) then Some(Text(value)) else None
  {
    hide Escaped, ReadScalar, IsPrintable;
    QuotedReadsBackIff(value, "");
    assert Quoted(value)[0] == '"' && Quoted(value)[1..] == Escaped(value) + ("\"" + "");
    assert "false"[0] == 'f';
  }

  lemma ReadKeyed(key: string, text: string, entry: Entry)
    requires IsKey(key) && key !in entry
    ensures ReadField(key + ": " + text, entry) ==
            if ReadValue(text).None? then None else Some(entry[key := ReadValue(text).value])
  {
    hide ReadValue, KeyLength;
    KeyLengthOf(key, text);
    Regroup(key, ": ", text);
    var line := key + ": " + text;
    assert line[..|key|] == key && line[|key| + 2..] == text;
  }

  function Added(entry: Entry, key: string, value: Option<string>): Entry {
    if value.None? then entry else entry[key := Text(value.value)]
  }

  predicate Writable(value: Option<string>) {
    value.None? || IsPrintable(value.value)
  }

  lemma IndentedLine(body: string, more: seq<string>, entry: Entry)
    ensures Entries(["  " + body] + more, entry) ==
            if ReadField(body, entry).None? then None else Entries(more, ReadField(body, entry).value)
  {
    var lines := ["  " + body] + more;
    assert lines[0] == "  " + body && lines[0][2..] == body && lines[1..] == more;
  }

  lemma OptionalLineReads(key: string, value: Option<string>, more: seq<string>, entry: Entry)
    requires IsKey(key) && key !in entry
    ensures Entries(OptionalLine(key, value) + more, entry) ==
            if Writable(value) then Entries(more, Added(entry, key, value)) else None
  {
    hide Entries, ReadField, Quoted, IsPrintable;
    if value.None? {
      assert OptionalLine(key, value) + more == more;
    } else {
      IndentedLine(Field(key, value.value), more, entry);
      ReadKeyed(key, Quoted(value.value), entry);
      ReadQuotedValue(value.value);
    }
  }

  function Shown(entry: Entry, visible: Option<bool>): Entry {
    if visible == Some(false) then entry["visible" := False] else entry
  }

  lemma FalseReads(entry: Entry)
    requires "visible" !in entry
    ensures ReadField("visible: false", entry) == Some(entry["visible" := False])
  {
    hide ReadField;
    ReadKeyed("visible", "false", entry);
    assert "visible" + ": " + "false" == "visible: false";
  }

  lemma VisibleLineReads(visible: Option<bool>, more: seq<string>, entry: Entry)
    requires "visible" !in entry
    ensures Entries(VisibleLine(visible) + more, entry) == Entries(more, Shown(entry, visible))
  {
    hide Entries, ReadField;
    if visible == Some(false) {
      FalseReads(entry);
      IndentedLine("visible: false", more, entry);
      assert "  " + "visible: false" == "  visible: false";
    } else {
      assert VisibleLine(visible) + more == more;
    }
  }

  /** A key that the mapping holds already is refused. */
  lemma RepeatedKeyIsRefused(key: string, text: string, entry: Entry)
    requires IsKey(key) && key in entry
    ensures ReadField(key + ": " + text, entry) == None
  {
    hide ReadValue, KeyLength;
    KeyLengthOf(key, text);
    Regroup(key, ": ", text);
    var line := key + ": " + text;
    assert line[..|key|] == key;
  }

  /** So is anything after the closing quote. */
  lemma TrailingTextIsRefused(value: string, more: string)
    requires more != ""
    ensures ReadValue(Quoted(value) + more) == None
  {
    hide Escaped, ReadScalar, IsPrintable;
    QuotedReadsBackIff(value, more);
    var text := Quoted(value) + more;
    assert text[0] == '"' && text[1..] == Escaped(value) + ("\"" + more);
    assert "false"[0] == 'f';
  }

  // ----- Registries come back -----

  function RequiredEntry(r: Registry): Entry {
    map["name" := Text(r.name), "url" := Text(r.url), "subpath" := Text(r.subpath)]
  }

  function EntryOf(r: Registry): Entry {
    Added(Added(Added(Shown(Added(RequiredEntry(r), "description", r.description), r.visible),
                      "tuning_subpath", r.tuningSubpath), "benchmark_subpath", r.benchmarkSubpath),
          "mods_subpath", r.modsSubpath)
  }

  predicate WritableRegistry(r: Registry) {
    && IsPrintable(r.name) && IsPrintable(r.url) && IsPrintable(r.subpath)
    && Writable(r.description) && Writable(r.tuningSubpath)
    && Writable(r.benchmarkSubpath) && Writable(r.modsSubpath)
  }

  lemma DistinctKeys()
    ensures "name" != "url" && "name" != "subpath" && "url" != "subpath"
    ensures "name" != "description" && "name" != "visible" && "name" != "tuning_subpath"
            && "name" != "benchmark_subpath" && "name" != "mods_subpath"
    ensures "url" != "description" && "url" != "visible" && "url" != "tuning_subpath"
            && "url" != "benchmark_subpath" && "url" != "mods_subpath"
    ensures "subpath" != "description" && "subpath" != "visible" && "subpath" != "tuning_subpath"
            && "subpath" != "benchmark_subpath" && "subpath" != "mods_subpath"
    ensures "description" != "visible" && "description" != "tuning_subpath"
            && "description" != "benchmark_subpath" && "description" != "mods_subpath"
    ensures "visible" != "tuning_subpath" && "visible" != "benchmark_subpath" && "visible" != "mods_subpath"
    ensures "tuning_subpath" != "benchmark_subpath" && "tuning_subpath" != "mods_subpath"
    ensures "benchmark_subpath" != "mods_subpath"
  {
    assert "subpath"[0] == 's' && "visible"[0] == 'v';
    assert |"name"| == 4 && |"url"| == 3 && |"subpath"| == 7 && |"description"| == 11 && |"visible"| == 7
      && |"tuning_subpath"| == 14 && |"benchmark_subpath"| == 17 && |"mods_subpath"| == 12;
  }

  lemma ExtrasRead(r: Registry, more: seq<string>)
    ensures Entries(Extras(r) + more, RequiredEntry(r)) ==
            if Writable(r.description) && Writable(r.tuningSubpath) && Writable(r.benchmarkSubpath) && Writable(r.modsSubpath)
            then Entries(more, EntryOf(r)) else None
  {
    hide Entries, OptionalLine, VisibleLine, Writable, IsKey;
    PlainKeys();
    DistinctKeys();
    var e1 := Added(RequiredEntry(r), "description", r.description);
    var e2 := Shown(e1, r.visible);
    var e3 := Added(e2, "tuning_subpath", r.tuningSubpath);
    var e4 := Added(e3, "benchmark_subpath", r.benchmarkSubpath);
    var l4 := OptionalLine("mods_subpath", r.modsSubpath) + more;
    var l3 := OptionalLine("benchmark_subpath", r.benchmarkSubpath) + l4;
    var l2 := OptionalLine("tuning_subpath", r.tuningSubpath) + l3;
    var l1 := VisibleLine(r.visible) + l2;
    ExtrasInOrder(r, more);
    OptionalLineReads("description", r.description, l1, RequiredEntry(r));
    VisibleLineReads(r.visible, l2, e1);
    OptionalLineReads("tuning_subpath", r.tuningSubpath, l3, e2);
    OptionalLineReads("benchmark_subpath", r.benchmarkSubpath, l4, e3);
    OptionalLineReads("mods_subpath", r.modsSubpath, more, e4);
  }

  lemma ExtrasInOrder(r: Registry, more: seq<string>)
    ensures Extras(r) + more ==
            OptionalLine("description", r.description)
            + (VisibleLine(r.visible)
               + (OptionalLine("tuning_subpath", r.tuningSubpath)
                  + (OptionalLine("benchmark_subpath", r.benchmarkSubpath)
                     + (OptionalLine("mods_subpath", r.modsSubpath) + more))))
  {
    hide OptionalLine, VisibleLine;
  }

  lemma DashedLine(body: string, more: seq<string>, entry: Entry)
    ensures Entries(["- " + body] + more, entry) ==
            if ReadField(body, map[]).None? then None
            else if Entries(more, ReadField(body, map[]).value).None? then None
            else Some([entry] + Entries(more, ReadField(body, map[]).value).value)
  {
    var lines := ["- " + body] + more;
    assert lines[0] == "- " + body && lines[0][2..] == body && lines[1..] == more;
  }

  /** The lines after `- name: …` fill the mapping that line opened. */
  function AfterName(r: Registry): seq<string> {
    ["  " + Field("url", r.url)] + (["  " + Field("subpath", r.subpath)] + Extras(r))
  }

  lemma AfterNameReads(r: Registry, more: seq<string>)
    requires IsPrintable(r.name)
    ensures Entries(AfterName(r) + more, map["name" := Text(r.name)]) ==
            if WritableRegistry(r) then Entries(more, EntryOf(r)) else None
  {
    hide Entries, Quoted, ReadField, EntryOf, IsKey, Extras, IsPrintable;
    PlainKeys();
    DistinctKeys();
    var e0: Entry := map["name" := Text(r.name)];
    var e1 := e0["url" := Text(r.url)];
    var l2 := Extras(r) + more;
    var l1 := ["  " + Field("subpath", r.subpath)] + l2;
    assert AfterName(r) + more == ["  " + Field("url", r.url)] + l1;
    IndentedLine(Field("url", r.url), l1, e0);
    ReadKeyed("url", Quoted(r.url), e0);
    ReadQuotedValue(r.url);
    IndentedLine(Field("subpath", r.subpath), l2, e1);
    ReadKeyed("subpath", Quoted(r.subpath), e1);
    ReadQuotedValue(r.subpath);
    assert e1["subpath" := Text(r.subpath)] == RequiredEntry(r);
    ExtrasRead(r, more);
  }

  function EntriesOf(registries: seq<Registry>): seq<Entry> {
    if registries == [] then [] else [EntryOf(registries[0])] + EntriesOf(registries[1..])
  }

  predicate AllWritable(registries: seq<Registry>) {
    forall i :: 0 <= i < |registries| ==> WritableRegistry(registries[i])
  }

  lemma NameLineReads(r: Registry, more: seq<string>)
    ensures ReadField(Field("name", r.name), map[]) ==
            if IsPrintable(r.name) then Some(map["name" := Text(r.name)]) else None
    ensures RegistryLines(r) + more == ["- " + Field("name", r.name)] + (AfterName(r) + more)
  {
    hide Quoted, ReadField, IsKey, Extras, IsPrintable;
    PlainKeys();
    ReadKeyed("name", Quoted(r.name), map[]);
    ReadQuotedValue(r.name);
  }

  lemma {:induction false} BodyReads(registries: seq<Registry>, entry: Entry)
    ensures Entries(BodyLines(registries), entry) ==
            if AllWritable(registries) then Some([entry] + EntriesOf(registries)) else None
    decreases |registries|
  {
    hide RegistryLines, AfterName, ReadField, EntryOf, Field;
    if registries != [] {
      var r, more := registries[0], BodyLines(registries[1..]);
      assert BodyLines(registries) == RegistryLines(r) + more;
      NameLineReads(r, more);
      DashedLine(Field("name", r.name), AfterName(r) + more, entry);
      if IsPrintable(r.name) {
        AfterNameReads(r, more);
        BodyReads(registries[1..], EntryOf(r));
      }
      AllWritableFront(registries);
      assert [entry] + ([EntryOf(r)] + EntriesOf(registries[1..])) == [entry] + EntriesOf(registries);
    } else {
      assert [entry] + [] == [entry];
    }
  }

  lemma AllWritableFront(registries: seq<Registry>)
    requires registries != []
    ensures AllWritable(registries) <==> WritableRegistry(registries[0]) && AllWritable(registries[1..])
  {
    hide WritableRegistry;
    assert forall i :: 0 < i < |registries| ==> registries[i] == registries[1..][i - 1];
  }

  lemma DocumentLines(registries: seq<Registry>)
    ensures registries == [] ==> Lines(Document(registries), "") == Some(["registries: []"])
    ensures registries != [] ==> Lines(Document(registries), "") == Some(["registries:"] + BodyLines(registries))
  {
    hide Lines, BodyLines;
    if registries == [] {
      var lines := ["registries: []"];
      LinesOfTerminated(lines);
      assert lines[0] + "\n" == "registries: []\n" && lines[1..] == [];
      assert Terminated(lines) == "registries: []\n";
    } else {
      BodyUnbroken(registries);
      LinesOfTerminated(["registries:"] + BodyLines(registries));
    }
  }

  lemma DashedBlock(body: string, more: seq<string>)
    ensures Block(["- " + body] + more) ==
            if ReadField(body, map[]).None? then None else Entries(more, ReadField(body, map[]).value)
  {
    hide ReadField, Entries;
    var lines := ["- " + body] + more;
    assert lines[0] == "- " + body && lines[0][2..] == body && lines[1..] == more;
  }

  lemma BlockReads(registries: seq<Registry>)
    requires registries != []
    ensures Block(BodyLines(registries)) == if AllWritable(registries) then Some(EntriesOf(registries)) else None
  {
    hide RegistryLines, AfterName, ReadField, EntryOf, Field, Entries, Block;
    var r, more := registries[0], BodyLines(registries[1..]);
    NameLineReads(r, more);
    DashedBlock(Field("name", r.name), AfterName(r) + more);
    AllWritableFront(registries);
    if IsPrintable(r.name) {
      AfterNameReads(r, more);
      BodyReads(registries[1..], EntryOf(r));
    }
  }

  lemma NoEntries()
    ensures EntriesOf([]) == [] && AllWritable([]) && ToRegistries([]) == Some([])
  {
  }

  lemma DocumentReads(registries: seq<Registry>)
    ensures ReadEntries(Document(registries)) ==
            if AllWritable(registries) then Some(EntriesOf(registries)) else None
  {
    hide Lines, Document, Block, BodyLines, EntriesOf, AllWritable;
    DocumentLines(registries);
    NoEntries();
    if registries != [] {
      BlockReads(registries);
      var lines := ["registries:"] + BodyLines(registries);
      assert lines[0] == "registries:" && lines[1..] == BodyLines(registries);
      assert |"registries:"| != |"registries: []"|;
    }
  }

  function Normalized(r: Registry): Registry {
    r.(visible := Some(r.visible != Some(false)))
  }

  function AllNormalized(registries: seq<Registry>): (r: seq<Registry>)
    ensures |r| == |registries| && forall i :: 0 <= i < |r| ==> r[i] == Normalized(registries[i])
  {
    seq(|registries|, i requires 0 <= i < |registries| => Normalized(registries[i]))
  }

  /** Two mappings hold the same under `key`. */
  predicate Same(a: Entry, b: Entry, key: string) {
    (key in a <==> key in b) && (key in a && key in b ==> a[key] == b[key])
  }

  lemma AddedOther(entry: Entry, key: string, value: Option<string>, other: string)
    requires key != other
    ensures Same(Added(entry, key, value), entry, other)
  {
  }

  lemma ShownOther(entry: Entry, visible: Option<bool>, other: string)
    requires "visible" != other
    ensures Same(Shown(entry, visible), entry, other)
  {
  }

  lemma AddedReads(entry: Entry, key: string, value: Option<string>)
    requires key !in entry
    ensures Optional(Added(entry, key, value), key) == value
  {
  }

  /** A key that is none of the optional ones is as it was among the required fields. */
  lemma EntryOther(r: Registry, key: string)
    requires key != "description" && key != "visible" && key != "tuning_subpath"
             && key != "benchmark_subpath" && key != "mods_subpath"
    ensures Same(EntryOf(r), RequiredEntry(r), key)
  {
    hide Added, Shown, RequiredEntry;
    var e1 := Added(RequiredEntry(r), "description", r.description);
    var e2 := Shown(e1, r.visible);
    var e3 := Added(e2, "tuning_subpath", r.tuningSubpath);
    var e4 := Added(e3, "benchmark_subpath", r.benchmarkSubpath);
    AddedOther(RequiredEntry(r), "description", r.description, key);
    ShownOther(e1, r.visible, key);
    AddedOther(e2, "tuning_subpath", r.tuningSubpath, key);
    AddedOther(e3, "benchmark_subpath", r.benchmarkSubpath, key);
    AddedOther(e4, "mods_subpath", r.modsSubpath, key);
  }

  lemma RequiredKeys(r: Registry)
    ensures IsRegistry(RequiredEntry(r))
    ensures RequiredEntry(r)["name"] == Text(r.name) && RequiredEntry(r)["url"] == Text(r.url)
    ensures RequiredEntry(r)["subpath"] == Text(r.subpath)
    ensures RequiredEntry(r).Keys == {"name", "url", "subpath"}
  {
    DistinctKeys();
  }

  /** What a later field leaves of an earlier one. */
  lemma AddedKeeps(entry: Entry, key: string, value: Option<string>, other: string)
    requires key != other
    ensures Optional(Added(entry, key, value), other) == Optional(entry, other)
    ensures other in Added(entry, key, value) <==> other in entry
  {
  }

  lemma ShownKeeps(entry: Entry, visible: Option<bool>, other: string)
    requires "visible" != other
    ensures Optional(Shown(entry, visible), other) == Optional(entry, other)
    ensures other in Shown(entry, visible) <==> other in entry
  {
  }

  predicate Hidden(entry: Entry) {
    "visible" in entry && entry["visible"].False?
  }

  lemma ShownHides(entry: Entry, visible: Option<bool>)
    requires "visible" !in entry
    ensures Hidden(Shown(entry, visible)) <==> visible == Some(false)
  {
  }

  lemma AddedKeepsHidden(entry: Entry, key: string, value: Option<string>)
    requires key != "visible"
    ensures Hidden(Added(entry, key, value)) <==> Hidden(entry)
  {
  }

  lemma HiddenField(r: Registry)
    ensures Hidden(EntryOf(r)) <==> r.visible == Some(false)
  {
    hide Added, Shown, RequiredEntry, Hidden;
    DistinctKeys();
    RequiredKeys(r);
    var e1 := Added(RequiredEntry(r), "description", r.description);
    var e2 := Shown(e1, r.visible);
    var e3 := Added(e2, "tuning_subpath", r.tuningSubpath);
    var e4 := Added(e3, "benchmark_subpath", r.benchmarkSubpath);
    AddedKeeps(RequiredEntry(r), "description", r.description, "visible");
    ShownHides(e1, r.visible);
    AddedKeepsHidden(e2, "tuning_subpath", r.tuningSubpath);
    AddedKeepsHidden(e3, "benchmark_subpath", r.benchmarkSubpath);
    AddedKeepsHidden(e4, "mods_subpath", r.modsSubpath);
  }

  /** Four optional fields with keys of their own are each read back. */
  lemma FourFields(e0: Entry, visible: Option<bool>, d: string, dv: Option<string>, t: string, tv: Option<string>,
                   b: string, bv: Option<string>, m: string, mv: Option<string>)
    requires d !in e0 && t !in e0 && b !in e0 && m !in e0
    requires d != "visible" && t != "visible" && b != "visible" && m != "visible"
    requires d != t && d != b && d != m && t != b && t != m && b != m
    ensures var entry := Added(Added(Added(Shown(Added(e0, d, dv), visible), t, tv), b, bv), m, mv);
      Optional(entry, d) == dv && Optional(entry, t) == tv && Optional(entry, b) == bv && Optional(entry, m) == mv
  {
    hide *;
    var e1 := Added(e0, d, dv);
    var e2 := Shown(e1, visible);
    var e3 := Added(e2, t, tv);
    var e4 := Added(e3, b, bv);
    AddedReads(e0, d, dv);
    ShownKeeps(e1, visible, d); AddedKeeps(e2, t, tv, d); AddedKeeps(e3, b, bv, d); AddedKeeps(e4, m, mv, d);
    AddedKeeps(e0, d, dv, t); ShownKeeps(e1, visible, t);
    AddedReads(e2, t, tv);
    AddedKeeps(e3, b, bv, t); AddedKeeps(e4, m, mv, t);
    AddedKeeps(e0, d, dv, b); ShownKeeps(e1, visible, b); AddedKeeps(e2, t, tv, b);
    AddedReads(e3, b, bv);
    AddedKeeps(e4, m, mv, b);
    AddedKeeps(e0, d, dv, m); ShownKeeps(e1, visible, m); AddedKeeps(e2, t, tv, m); AddedKeeps(e3, b, bv, m);
    AddedReads(e4, m, mv);
  }

  lemma OptionalFields(r: Registry)
    ensures var entry := EntryOf(r);
      && Optional(entry, "description") == r.description
      && Optional(entry, "tuning_subpath") == r.tuningSubpath
      && Optional(entry, "benchmark_subpath") == r.benchmarkSubpath
      && Optional(entry, "mods_subpath") == r.modsSubpath
  {
    hide Added, Shown, RequiredEntry, Optional;
    DistinctKeys();
    RequiredKeys(r);
    FourFields(RequiredEntry(r), r.visible, "description", r.description, "tuning_subpath", r.tuningSubpath,
               "benchmark_subpath", r.benchmarkSubpath, "mods_subpath", r.modsSubpath);
  }

  lemma EntryIsRegistry(r: Registry)
    ensures IsRegistry(EntryOf(r)) && ToRegistry(EntryOf(r)) == Normalized(r)
  {
    hide EntryOf, RequiredEntry, Optional;
    DistinctKeys();
    RequiredKeys(r);
    EntryOther(r, "name");
    EntryOther(r, "url");
    EntryOther(r, "subpath");
    OptionalFields(r);
    HiddenField(r);
  }

  lemma ToRegistriesFront(entry: Entry, entries: seq<Entry>)
    requires IsRegistry(entry) && ToRegistries(entries).Some?
    ensures ToRegistries([entry] + entries) == Some([ToRegistry(entry)] + ToRegistries(entries).value)
  {
    hide ToRegistry, IsRegistry;
    assert ([entry] + entries)[1..] == entries;
  }

  lemma EntriesFront(registries: seq<Registry>)
    requires registries != []
    ensures EntriesOf(registries) == [EntryOf(registries[0])] + EntriesOf(registries[1..])
  {
    hide EntryOf;
  }

  lemma NormalizedFront(registries: seq<Registry>)
    requires registries != []
    ensures AllNormalized(registries) == [Normalized(registries[0])] + AllNormalized(registries[1..])
  {
    hide *;
    var front := [Normalized(registries[0])] + AllNormalized(registries[1..]);
    assert |front| == |registries|;
    forall i | 0 <= i < |registries| ensures AllNormalized(registries)[i] == front[i] {
      if i > 0 {
        assert registries[1..][i - 1] == registries[i];
      }
    }
  }

  lemma {:induction false} EntriesAreRegistries(registries: seq<Registry>)
    ensures ToRegistries(EntriesOf(registries)) == Some(AllNormalized(registries))
    decreases |registries|
  {
    hide *;
    if registries == [] {
      NoEntries();
      assert AllNormalized(registries) == [];
    } else {
      EntryIsRegistry(registries[0]);
      EntriesAreRegistries(registries[1..]);
      EntriesFront(registries);
      NormalizedFront(registries);
      ToRegistriesFront(EntryOf(registries[0]), EntriesOf(registries[1..]));
    }
  }

  /** The file reads back as the list, up to the default of `visible`, exactly when its strings can be written. */
  lemma RegistriesReadBackIff(registries: seq<Registry>)
    ensures ReadRegistries(Document(registries)) ==
            if AllWritable(registries) then Some(AllNormalized(registries)) else None
  {
    hide Document, ReadEntries, AllWritable;
    DocumentReads(registries);
    EntriesAreRegistries(registries);
  }
}
