/** The narrow-string INI parser of the settings (UE4SS/src/SettingsManager.cpp). */
module SettingsIni {
  import opened Text
  import opened Streams

  type Sections = map<string, map<string, string>>

  // ----- lines and blanks -----

  predicate IsBlank(c: char) { c == ' ' || c == '\t' }

  predicate AllBlank(s: string) { forall c <- s :: IsBlank(c) }

  function TrimStart(s: string): string {
    if s != "" && IsBlank(s[0]) then TrimStart(s[1..]) else s
  }

  function TrimEnd(s: string): string {
    if s != "" && IsBlank(s[|s| - 1]) then TrimEnd(s[..|s| - 1]) else s
  }

  function Trim(s: string): string { TrimEnd(TrimStart(s)) }

  /** No blank at either edge. */
  predicate Trimmed(s: string) {
    s != "" ==> !IsBlank(s[0]) && !IsBlank(s[|s| - 1])
  }

  // ----- what a line means -----

  datatype Item = Noise | Header(name: string) | Entry(key: string, value: string)

  function DropCr(line: string): string {
    if line != "" && line[|line| - 1] == '\r' then line[..|line| - 1] else line
  }

  function Classified(trimmed: string): Item {
    if trimmed == "" || trimmed[0] == ';' || trimmed[0] == '#' then Noise
    else if trimmed[0] == '[' && trimmed[|trimmed| - 1] == ']' then Header(trimmed[1..|trimmed| - 1])
    else match IndexOf(trimmed, '=')
      case None => Noise
      case Some(eq) => Entry(Trim(trimmed[..eq]), Trim(trimmed[eq + 1..]))
  }

  function Meaning(line: string): Item { Classified(Trim(DropCr(line))) }

  /** The parser's variables: `current_section` and `ini_sections`. */
  datatype Ini = Ini(section: string, sections: Sections)

  function Applied(ini: Ini, item: Item): Ini {
    match item
    case Noise => ini
    case Header(name) => ini.(section := name)
    case Entry(key, value) =>
      var section := if ini.section in ini.sections then ini.sections[ini.section] else map[];
      ini.(sections := ini.sections[ini.section := section[key := value]])
  }

  function Evaluated(ini: Ini, items: seq<Item>): Ini
    decreases |items|
  {
    if items == [] then ini else Evaluated(Applied(ini, items[0]), items[1..])
  }

  function ReadLines(ini: Ini, lines: seq<string>): Ini
    decreases |lines|
  {
    if lines == [] then ini else ReadLines(Applied(ini, Meaning(lines[0])), lines[1..])
  }

  const EMPTY := Ini("", map[])

  function Parsed(text: string): Sections { ReadLines(EMPTY, Lines(text)).sections }

  // ----- the parser -----

  method FindFirstNotBlank(s: string) returns (r: Option<nat>)
    ensures r.None? ==> AllBlank(s)
    ensures r.Some? ==> r.value < |s| && AllBlank(s[..r.value]) && !IsBlank(s[r.value])
  {
    for i := 0 to |s|
      invariant AllBlank(s[..i])
    {
      if !IsBlank(s[i]) {
        return Some(i);
      }
      assert s[..i + 1] == s[..i] + [s[i]];
    }
    assert s[..|s|] == s;
    r := None;
  }

  method FindLastNotBlank(s: string) returns (r: Option<nat>)
    ensures r.None? ==> AllBlank(s)
    ensures r.Some? ==> r.value < |s| && AllBlank(s[r.value + 1..]) && !IsBlank(s[r.value])
  {
    var i := |s|;
    while i > 0
      invariant 0 <= i <= |s| && AllBlank(s[i..])
    {
      if !IsBlank(s[i - 1]) {
        return Some(i - 1);
      }
      assert s[i - 1..] == [s[i - 1]] + s[i..];
      i := i - 1;
    }
    assert s[0..] == s;
    r := None;
  }

  /** The `find_first_not_of` / `find_last_not_of` / `substr` idiom. */
  method TrimBlanks(s: string) returns (r: string)
    ensures r == Trim(s)
  {
    var first := FindFirstNotBlank(s);
    if first.None? {
      TrimPadded(s, "", "");
      assert s + "" + "" == s;
      return "";
    }
    var last := FindLastNotBlank(s);
    TrimCut(s, first.value, last.value);
    r := s[first.value..last.value + 1];
  }

  lemma TrimCut(s: string, first: nat, last: nat)
    requires first < |s| && last < |s| && !IsBlank(s[first]) && !IsBlank(s[last])
    requires AllBlank(s[..first]) && AllBlank(s[last + 1..])
    ensures first <= last && Trim(s) == s[first..last + 1]
  {
    assert forall i :: 0 <= i < first ==> s[i] == s[..first][i] && s[i] in s[..first];
    var w := s[first..last + 1];
    assert s == s[..first] + w + s[last + 1..];
    TrimPadded(s[..first], w, s[last + 1..]);
  }

  method ParseLine(line: string, ini: Ini) returns (r: Ini)
    ensures r == Applied(ini, Meaning(line))
  {
    r := ini;
    var stripped := line;
    if stripped != "" && stripped[|stripped| - 1] == '\r' {
      stripped := stripped[..|stripped| - 1];
    }
    var trimmed := TrimBlanks(stripped);
    if trimmed == "" || trimmed[0] == ';' || trimmed[0] == '#' {
      return;
    }
    if trimmed[0] == '[' && trimmed[|trimmed| - 1] == ']' {
      r := r.(section := trimmed[1..|trimmed| - 1]);
      return;
    }
    var eq := IndexOf(trimmed, '=');
    if eq.None? {
      return;
    }
    var key := TrimBlanks(trimmed[..eq.value]);
    var value := TrimBlanks(trimmed[eq.value + 1..]);
    var section := if r.section in r.sections then r.sections[r.section] else map[];
    r := r.(sections := r.sections[r.section := section[key := value]]);
  }

  method Deserialize(text: string) returns (sections: Sections)
    ensures sections == Parsed(text)
  {
    var ini := EMPTY;
    var rest := text;
    while rest != ""
      invariant ReadLines(ini, Lines(rest)) == ReadLines(EMPTY, Lines(text))
      decreases |rest|
    {
      ghost var left := Lines(rest);
      var line;
      line, rest := GetLine(rest);
      assert left[1..] == Lines(rest);
      ini := ParseLine(line, ini);
    }
    sections := ini.sections;
  }

  // ----- trimming -----

  lemma {:induction false} TrimStartPadded(pre: string, w: string)
    requires AllBlank(pre) && (w != "" ==> !IsBlank(w[0]))
    ensures TrimStart(pre + w) == w
  {
    if pre == "" {
      assert pre + w == w;
    } else {
      assert pre[0] in pre;
      assert (pre + w)[1..] == pre[1..] + w;
      assert forall c <- pre[1..] :: c in pre;
      TrimStartPadded(pre[1..], w);
    }
  }

  lemma {:induction false} TrimEndPadded(w: string, post: string)
    requires AllBlank(post) && (w != "" ==> !IsBlank(w[|w| - 1]))
    ensures TrimEnd(w + post) == w
  {
    if post == "" {
      assert w + post == w;
    } else {
      var n := |post| - 1;
      assert post[n] in post;
      assert (w + post)[..|w| + n] == w + post[..n];
      assert forall c <- post[..n] :: c in post;
      TrimEndPadded(w, post[..n]);
    }
  }

  lemma TrimPadded(pre: string, w: string, post: string)
    requires AllBlank(pre) && Trimmed(w) && AllBlank(post)
    ensures Trim(pre + w + post) == w
  {
    if w == "" {
      TrimStartPadded(pre + post, "");
      assert pre + w + post == pre + post + "";
    } else {
      assert pre + w + post == pre + (w + post);
      TrimStartPadded(pre, w + post);
      TrimEndPadded(w, post);
    }
  }

  lemma {:induction false} TrimStartFacts(s: string)
    ensures |TrimStart(s)| <= |s| && forall c <- TrimStart(s) :: c in s
    ensures TrimStart(s) != "" ==> !IsBlank(TrimStart(s)[0])
    ensures s != "" && IsBlank(s[0]) ==> |TrimStart(s)| < |s|
  {
    if s != "" && IsBlank(s[0]) { TrimStartFacts(s[1..]); }
  }

  lemma {:induction false} TrimEndFacts(s: string)
    ensures TrimEnd(s) <= s
    ensures TrimEnd(s) != "" ==> !IsBlank(TrimEnd(s)[|TrimEnd(s)| - 1])
    ensures s != "" && IsBlank(s[|s| - 1]) ==> |TrimEnd(s)| < |s|
  {
    if s != "" && IsBlank(s[|s| - 1]) { TrimEndFacts(s[..|s| - 1]); }
  }

  lemma TrimIsTrimmed(s: string)
    ensures Trimmed(Trim(s)) && |Trim(s)| <= |s| && forall c <- Trim(s) :: c in s
    ensures !Trimmed(s) ==> |Trim(s)| < |s|
  {
    TrimStartFacts(s);
    TrimEndFacts(TrimStart(s));
  }

  lemma {:induction false} TrimStartSplits(s: string) returns (pre: string)
    ensures AllBlank(pre) && s == pre + TrimStart(s)
  {
    if s != "" && IsBlank(s[0]) {
      var blanks := TrimStartSplits(s[1..]);
      pre := [s[0]] + blanks;
      assert s == [s[0]] + (blanks + TrimStart(s[1..])) == pre + TrimStart(s[1..]);
    } else {
      pre := "";
    }
  }

  /** Blanks and tabs at either edge of a line, before its carriage return, do not
      change what it means. */
  lemma EdgesDoNotMatter(c: char, line: string)
    requires (c == ' ' || c == '\t') && (line == "" || line[|line| - 1] != '\r')
    ensures Meaning([c] + line) == Meaning(line) == Meaning(line + [c])
  {
    assert ([c] + line)[1..] == line && (line + [c])[..|line|] == line;
    EdgeOfText(c, line);
  }

  lemma EdgeOfBlank(c: char, line: string)
    requires IsBlank(c) && AllBlank(line)
    ensures Trim([c] + line) == Trim(line) == Trim(line + [c]) == ""
  {
    forall s: string | AllBlank(s) ensures Trim(s) == "" {
      TrimPadded(s, "", "");
      assert s + "" + "" == s;
    }
  }

  lemma EdgeOfText(c: char, line: string)
    requires IsBlank(c)
    ensures Trim([c] + line) == Trim(line) == Trim(line + [c])
  {
    assert ([c] + line)[1..] == line && (line + [c])[..|line|] == line;
    var pre := TrimStartSplits(line);
    var w := TrimStart(line);
    TrimStartFacts(line);
    if w == "" {
      EdgeOfBlank(c, line);
    } else {
      assert line + [c] == pre + (w + [c]);
      TrimStartPadded(pre, w + [c]);
      assert (w + [c])[..|w|] == w;
    }
  }

  // ----- which entry lines survive -----

  /** The pairs that an INI line can carry. */
  predicate Printable(key: string, value: string) {
    Pair(key, value) && (value != "" ==> value[|value| - 1] != '\r')
  }

  /** The pairs that a line can carry once its carriage return is dropped. */
  predicate Pair(key: string, value: string) {
    && '=' !in key && Trimmed(key) && Trimmed(value)
    && (key != "" ==> key[0] != ';' && key[0] != '#')
    && !(key != "" && key[0] == '[' && value != "" && value[|value| - 1] == ']')
  }

  lemma {:induction false} TrimEndAfter(p: string, s: string)
    requires p != "" && !IsBlank(p[|p| - 1])
    ensures TrimEnd(p + s) == p + TrimEnd(s)
  {
    if s != "" && IsBlank(s[|s| - 1]) {
      assert (p + s)[..|p + s| - 1] == p + s[..|s| - 1];
      TrimEndAfter(p, s[..|s| - 1]);
    }
  }

  lemma {:induction false} TrimStartBefore(s: string, k: string)
    requires k != "" && !IsBlank(k[0])
    ensures TrimStart(s + k) == TrimStart(s) + k
  {
    if s != "" && IsBlank(s[0]) {
      assert (s + k)[1..] == s[1..] + k;
      TrimStartBefore(s[1..], k);
    } else if s == "" {
      assert s + k == k;
    }
  }

  /** The equals sign keeps the two trimmings apart. */
  lemma TrimAroundEquals(a: string, b: string)
    ensures Trim(a + ("=" + b)) == TrimStart(a) + ("=" + TrimEnd(b))
  {
    TrimStartBefore(a, "=" + b);
    TrimEndAfterEquals(TrimStart(a), b);
  }

  lemma TrimEndAfterEquals(s: string, b: string)
    ensures TrimEnd(s + ("=" + b)) == s + ("=" + TrimEnd(b))
  {
    var p := s + "=";
    TrimEndAfter(p, b);
    assert s + ("=" + b) == p + b;
    assert p + TrimEnd(b) == s + ("=" + TrimEnd(b));
  }

  lemma ClassifiedEntry(left: string, right: string)
    requires '=' !in left
    requires left != "" ==> left[0] != ';' && left[0] != '#'
    requires !(left != "" && left[0] == '[' && right != "" && right[|right| - 1] == ']')
    ensures Classified(left + ("=" + right)) == Entry(Trim(left), Trim(right))
  {
    var core := left + ("=" + right);
    assert core == left + "=" + right;
    IndexOfFirst(left, '=', right);
    assert core[..|left|] == left && core[|left| + 1..] == right;
  }

  lemma KeyTrims(pre: string, key: string, before: string)
    requires AllBlank(pre) && AllBlank(before) && Trimmed(key)
    ensures TrimStart(pre + (key + before)) == (if key == "" then "" else key + before)
    ensures Trim(TrimStart(pre + (key + before))) == key
  {
    if key == "" {
      TrimStartPadded(pre + before, "");
      assert pre + (key + before) == pre + before + "";
    } else {
      TrimStartPadded(pre, key + before);
      TrimStartPadded("", key + before);
      assert "" + (key + before) == key + before;
      TrimEndPadded(key, before);
    }
  }

  lemma ValueTrims(after: string, value: string, post: string)
    requires AllBlank(after) && AllBlank(post) && Trimmed(value)
    ensures TrimEnd(after + value + post) == (if value == "" then "" else after + value)
    ensures Trim(TrimEnd(after + value + post)) == value
  {
    if value == "" {
      TrimEndPadded("", after + post);
      assert after + value + post == "" + (after + post);
    } else {
      TrimEndPadded(after + value, post);
      TrimStartPadded(after, value);
      TrimEndPadded(value, "");
      assert value + "" == value;
    }
  }

  /** Blanks around an entry's parts do not matter. */
  lemma EntryTrims(pre: string, key: string, before: string, after: string, value: string, post: string)
    requires AllBlank(pre) && AllBlank(before) && AllBlank(after) && AllBlank(post) && Pair(key, value)
    ensures Classified(Trim(pre + (key + before) + ("=" + (after + value + post)))) == Entry(key, value)
  {
    var a, b := pre + (key + before), after + value + post;
    TrimAroundEquals(a, b);
    KeyTrims(pre, key, before);
    ValueTrims(after, value, post);
    ClassifiedEntry(TrimStart(a), TrimEnd(b));
  }

  function Cr(cr: bool): string { if cr then "\r" else "" }

  /** Dropping one carriage return at the end leaves the text: the one that was
      put there, or none. */
  predicate CrSafe(text: string, cr: bool) {
    cr || text == "" || text[|text| - 1] != '\r'
  }

  lemma CrDrops(line: string, cr: bool)
    requires CrSafe(line, cr)
    ensures DropCr(line + Cr(cr)) == line
  {
    assert (line + "\r")[..|line|] == line;
    assert line + "" == line;
  }

  /** An entry ends as its value and the blanks behind it do. */
  lemma EntryEnd(left: string, after: string, value: string, post: string, cr: bool)
    requires AllBlank(after) && CrSafe(value + post, cr)
    ensures CrSafe(left + ("=" + (after + value + post)), cr)
  {
    var front, tail := left + ("=" + after), value + post;
    assert left + ("=" + (after + value + post)) == front + tail;
    assert after == "" ==> front[|front| - 1] == '=';
    assert after != "" ==> front[|front| - 1] == after[|after| - 1] && after[|after| - 1] in after;
    assert tail != "" ==> (front + tail)[|front + tail| - 1] == tail[|tail| - 1];
    assert tail == "" ==> front + tail == front;
  }

  /** An entry with blanks around its parts, and possibly a carriage return at
      the end, is read back. */
  lemma EntryMeaning(pre: string, key: string, before: string, after: string, value: string, post: string, cr: bool)
    requires AllBlank(pre) && AllBlank(before) && AllBlank(after) && AllBlank(post) && Pair(key, value)
    requires CrSafe(value + post, cr)
    ensures Meaning(pre + (key + before) + ("=" + (after + value + post)) + Cr(cr)) == Entry(key, value)
  {
    EntryTrims(pre, key, before, after, value, post);
    EntryEnd(pre + (key + before), after, value, post, cr);
    CrDrops(pre + (key + before) + ("=" + (after + value + post)), cr);
  }

  lemma PlainEntry(key: string, value: string)
    ensures "" + (key + " ") + ("=" + (" " + value + "")) + Cr(false) == key + " = " + value
  {
    assert Cr(false) == "";
  }

  /** Such a pair is exactly what the line `key = value` can carry. */
  lemma EntrySurvivesIff(key: string, value: string)
    ensures Meaning(key + " = " + value) == Entry(key, value) <==> Printable(key, value)
  {
    if Printable(key, value) {
      assert value + "" == value;
      EntryMeaning("", key, " ", " ", value, "", false);
      PlainEntry(key, value);
    } else if Meaning(key + " = " + value) == Entry(key, value) {
      SurvivorIsPrintable(key, value);
    }
  }

  /** Trimming the line `key = value` of a trimmed key. */
  lemma TrimmedEntry(key: string, value: string)
    requires Trimmed(key)
    ensures Trim(DropCr(key + " = " + value))
         == (if key == "" then "" else key + " ") + ("=" + TrimEnd(DropCr(" " + value)))
  {
    var right := DropCr(" " + value);
    assert DropCr(key + " = " + value) == (key + " ") + ("=" + right);
    KeyTrims("", key, " ");
    assert "" + (key + " ") == key + " ";
    TrimAroundEquals(key + " ", right);
  }

  lemma RightOfEquals(value: string)
    requires Trimmed(value) && value != ""
    ensures value[|value| - 1] != '\r' ==> TrimEnd(DropCr(" " + value)) == " " + value
    ensures value[|value| - 1] == '\r' ==> Trim(TrimEnd(DropCr(" " + value))) != value
  {
    if value[|value| - 1] != '\r' {
      TrimEndPadded(" " + value, "");
      assert " " + value + "" == " " + value;
    } else {
      var right := TrimEnd(DropCr(" " + value));
      TrimEndFacts(DropCr(" " + value));
      TrimIsTrimmed(right);
    }
  }

  lemma EntryIsTrimmed(trimmed: string, key: string, value: string)
    requires Classified(trimmed) == Entry(key, value)
    ensures Trimmed(key) && Trimmed(value) && '=' !in key
  {
    var eq := IndexOf(trimmed, '=').value;
    TrimIsTrimmed(trimmed[..eq]);
    TrimIsTrimmed(trimmed[eq + 1..]);
  }

  lemma SurvivorIsPrintable(key: string, value: string)
    requires Meaning(key + " = " + value) == Entry(key, value)
    ensures Printable(key, value)
  {
    EntryIsTrimmed(Trim(DropCr(key + " = " + value)), key, value);
    TrimmedEntry(key, value);
    SurvivorParts(key, value, if key == "" then "" else key + " ", TrimEnd(DropCr(" " + value)));
  }

  lemma SurvivorParts(key: string, value: string, left: string, right: string)
    requires Trimmed(key) && Trimmed(value) && '=' !in key
    requires left == if key == "" then "" else key + " "
    requires right == TrimEnd(DropCr(" " + value))
    requires Classified(left + ("=" + right)) == Entry(key, value)
    ensures Printable(key, value)
  {
    var trimmed := left + ("=" + right);
    if value != "" { RightOfEquals(value); }
    RightPart(left, right);
    assert key != "" ==> trimmed[0] == key[0];
  }

  lemma RightPart(left: string, right: string)
    requires '=' !in left
    ensures Classified(left + ("=" + right)).Entry? ==> Classified(left + ("=" + right)).value == Trim(right)
    ensures right != "" ==> (left + ("=" + right))[|left + ("=" + right)| - 1] == right[|right| - 1]
  {
    var trimmed := left + ("=" + right);
    assert trimmed == left + "=" + right;
    IndexOfFirst(left, '=', right);
    assert trimmed[|left| + 1..] == right;
  }

  // ----- whole files -----

  /** The lines a settings file is made of, with their incidental blanks; junk
      is anything without a meaning. */
  datatype Line =
    | EntryLine(pre: string, key: string, before: string, after: string, value: string, post: string, cr: bool)
    | HeaderLine(pre: string, name: string, post: string, cr: bool)
    | CommentLine(pre: string, mark: char, text: string)
    | BlankLine(blank: string, cr: bool)
    | JunkLine(pre: string, text: string, post: string, cr: bool)

  predicate IsJunk(text: string) {
    && text != "" && Trimmed(text) && '=' !in text
    && !(text[0] == '[' && text[|text| - 1] == ']')
  }

  predicate ValidLine(l: Line) {
    && '\n' !in LineText(l)
    && match l
       case EntryLine(pre, key, before, after, value, post, cr) =>
         AllBlank(pre) && AllBlank(before) && AllBlank(after) && AllBlank(post) && Pair(key, value)
           && CrSafe(value + post, cr)
       case HeaderLine(pre, _, post, _) => AllBlank(pre) && AllBlank(post)
       case CommentLine(pre, mark, _) => AllBlank(pre) && (mark == ';' || mark == '#')
       case BlankLine(blank, _) => AllBlank(blank)
       case JunkLine(pre, text, post, cr) =>
         AllBlank(pre) && IsJunk(text) && AllBlank(post) && CrSafe(text + post, cr)
  }

  function LineText(l: Line): string {
    match l
    case EntryLine(pre, key, before, after, value, post, cr) =>
      pre + (key + before) + ("=" + (after + value + post)) + Cr(cr)
    case HeaderLine(pre, name, post, cr) => pre + ("[" + name + "]") + post + Cr(cr)
    case CommentLine(pre, mark, text) => pre + ([mark] + text)
    case BlankLine(blank, cr) => blank + Cr(cr)
    case JunkLine(pre, text, post, cr) => pre + text + post + Cr(cr)
  }

  function ItemOf(l: Line): Item {
    match l
    case EntryLine(_, key, _, _, value, _, _) => Entry(key, value)
    case HeaderLine(_, name, _, _) => Header(name)
    case CommentLine(_, _, _) => Noise
    case BlankLine(_, _) => Noise
    case JunkLine(_, _, _, _) => Noise
  }

  function Printed(doc: seq<Line>): string {
    if doc == [] then "" else LineText(doc[0]) + ("\n" + Printed(doc[1..]))
  }

  function Items(doc: seq<Line>): seq<Item> {
    if doc == [] then [] else [ItemOf(doc[0])] + Items(doc[1..])
  }

  lemma HeaderMeaning(pre: string, name: string, post: string, cr: bool)
    requires AllBlank(pre) && AllBlank(post)
    ensures Meaning(pre + ("[" + name + "]") + post + Cr(cr)) == Header(name)
  {
    var core := "[" + name + "]";
    assert post != "" ==> post[|post| - 1] in post;
    CrDrops(pre + core + post, cr);
    TrimPadded(pre, core, post);
    assert core[1..|core| - 1] == name;
  }

  lemma CommentMeaning(pre: string, mark: char, text: string)
    requires AllBlank(pre) && (mark == ';' || mark == '#')
    ensures Meaning(pre + ([mark] + text)) == Noise
  {
    var d := DropCr(pre + ([mark] + text));
    var rest := d[|pre| + 1..];
    assert d == pre + ([mark] + rest);
    TrimStartPadded(pre, [mark] + rest);
    TrimEndAfter([mark], rest);
  }

  lemma BlankMeaning(blank: string, cr: bool)
    requires AllBlank(blank)
    ensures Meaning(blank + Cr(cr)) == Noise
  {
    assert blank != "" ==> blank[|blank| - 1] in blank;
    CrDrops(blank, cr);
    TrimPadded(blank, "", "");
    assert blank + "" + "" == blank;
  }

  lemma JunkMeaning(pre: string, text: string, post: string, cr: bool)
    requires AllBlank(pre) && IsJunk(text) && AllBlank(post) && CrSafe(text + post, cr)
    ensures Meaning(pre + text + post + Cr(cr)) == Noise
  {
    assert pre + text + post == pre + (text + post);
    CrDrops(pre + text + post, cr);
    TrimPadded(pre, text, post);
  }

  lemma LineMeaning(l: Line)
    requires ValidLine(l)
    ensures Meaning(LineText(l)) == ItemOf(l)
  {
    match l
    case EntryLine(pre, key, before, after, value, post, cr) => EntryMeaning(pre, key, before, after, value, post, cr);
    case HeaderLine(pre, name, post, cr) => HeaderMeaning(pre, name, post, cr);
    case CommentLine(pre, mark, text) => CommentMeaning(pre, mark, text);
    case BlankLine(blank, cr) => BlankMeaning(blank, cr);
    case JunkLine(pre, text, post, cr) => JunkMeaning(pre, text, post, cr);
  }

  lemma {:induction false} DocumentMeaning(doc: seq<Line>, ini: Ini)
    requires forall l <- doc :: ValidLine(l)
    ensures ReadLines(ini, Lines(Printed(doc))) == Evaluated(ini, Items(doc))
    decreases |doc|
  {
    if doc != [] {
      assert doc[0] in doc;
      FirstLine(LineText(doc[0]), Printed(doc[1..]));
      LineMeaning(doc[0]);
      assert ([LineText(doc[0])] + Lines(Printed(doc[1..])))[1..] == Lines(Printed(doc[1..]));
      assert Items(doc)[1..] == Items(doc[1..]);
      DocumentMeaning(doc[1..], Applied(ini, ItemOf(doc[0])));
    }
  }

  /** Blank and comment lines, and blanks and carriage returns at the edges, do
      not change what a file says. */
  lemma LayoutDoesNotMatter(doc: seq<Line>, doc': seq<Line>)
    requires (forall l <- doc :: ValidLine(l)) && (forall l <- doc' :: ValidLine(l))
    requires Contentful(Items(doc)) == Contentful(Items(doc'))
    ensures Parsed(Printed(doc)) == Parsed(Printed(doc'))
  {
    DocumentMeaning(doc, EMPTY);
    DocumentMeaning(doc', EMPTY);
    NoiseIsIgnored(Items(doc), EMPTY);
    NoiseIsIgnored(Items(doc'), EMPTY);
  }

  function Contentful(items: seq<Item>): seq<Item> {
    if items == [] then [] else (if items[0].Noise? then [] else [items[0]]) + Contentful(items[1..])
  }

  lemma {:induction false} NoiseIsIgnored(items: seq<Item>, ini: Ini)
    ensures Evaluated(ini, Contentful(items)) == Evaluated(ini, items)
    decreases |items|
  {
    if items != [] {
      if items[0].Noise? {
        assert Contentful(items) == Contentful(items[1..]);
      } else {
        assert Contentful(items)[1..] == Contentful(items[1..]);
      }
      NoiseIsIgnored(items[1..], Applied(ini, items[0]));
    }
  }

  // ----- look-ups -----

  /** `get_str` */
  function Lookup(sections: Sections, section: string, key: string): Option<string> {
    if section in sections && key in sections[section] then Some(sections[section][key]) else None
  }

  /** The last value given to the key while its section was the current one. */
  function LastGiven(items: seq<Item>, current: string, section: string, key: string): Option<string>
    decreases |items|
  {
    if items == [] then None
    else match items[0]
      case Noise => LastGiven(items[1..], current, section, key)
      case Header(name) => LastGiven(items[1..], name, section, key)
      case Entry(k, v) =>
        var later := LastGiven(items[1..], current, section, key);
        if later.Some? then later else if current == section && k == key then Some(v) else None
  }

  lemma {:induction false} LookupIsLastGiven(items: seq<Item>, ini: Ini, section: string, key: string)
    ensures Lookup(Evaluated(ini, items).sections, section, key)
         == var given := LastGiven(items, ini.section, section, key);
            if given.Some? then given else Lookup(ini.sections, section, key)
    decreases |items|
  {
    if items != [] {
      LookupIsLastGiven(items[1..], Applied(ini, items[0]), section, key);
    }
  }

  /** A key of the file has the last value the file gives it in that section,
      and no other key is there. */
  lemma FileSaysLast(doc: seq<Line>, section: string, key: string)
    requires forall l <- doc :: ValidLine(l)
    ensures Lookup(Parsed(Printed(doc)), section, key) == LastGiven(Items(doc), "", section, key)
  {
    DocumentMeaning(doc, EMPTY);
    LookupIsLastGiven(Items(doc), EMPTY, section, key);
  }

  // ----- every text is a document -----

  /** Any text is its trimmed part with blanks around it. */
  lemma TrimSplits(s: string) returns (pre: string, post: string)
    ensures AllBlank(pre) && AllBlank(post) && s == pre + Trim(s) + post && Trimmed(Trim(s))
    ensures Trim(s) == "" ==> post == ""
  {
    TrimIsTrimmed(s);
    pre := TrimStartSplits(s);
    post := TrimEndSplits(TrimStart(s));
    assert s == pre + Trim(s) + post;
    if Trim(s) == "" {
      assert pre + "" + post == pre + post;
      pre, post := pre + post, "";
    }
  }

  lemma {:induction false} TrimEndSplits(s: string) returns (post: string)
    ensures AllBlank(post) && s == TrimEnd(s) + post
  {
    if s != "" && IsBlank(s[|s| - 1]) {
      var front := s[..|s| - 1];
      var blanks := TrimEndSplits(front);
      post := blanks + [s[|s| - 1]];
      assert s == (TrimEnd(front) + blanks) + [s[|s| - 1]] == TrimEnd(front) + post;
    } else {
      post := "";
    }
  }

  lemma CrSplits(line: string) returns (cr: bool)
    ensures line == DropCr(line) + Cr(cr) && CrSafe(DropCr(line), cr)
  {
    cr := line != "" && line[|line| - 1] == '\r';
  }

  /** A trimmed text with an equals sign that is neither a comment nor a header. */
  lemma EntrySplits(core: string)
    returns (key: string, before: string, after: string, value: string)
    requires Trimmed(core) && '=' in core && core[0] != ';' && core[0] != '#'
    requires !(core[0] == '[' && core[|core| - 1] == ']')
    ensures AllBlank(before) && AllBlank(after) && Pair(key, value)
    ensures core == (key + before) + ("=" + (after + value))
  {
    var eq := IndexOf(core, '=').value;
    var left, right := core[..eq], core[eq + 1..];
    assert core == left + ("=" + right);
    var pre, post;
    pre, before := TrimSplits(left);
    after, post := TrimSplits(right);
    key, value := Trim(left), Trim(right);
    LeftEdge(pre, key, before, left);
    RightEdge(after, value, post, right);
    TrimIsTrimmed(left);
    assert key != "" ==> key[0] == core[0];
    assert value != "" ==> value[|value| - 1] == core[|core| - 1];
  }

  lemma LeftEdge(pre: string, key: string, before: string, left: string)
    requires AllBlank(pre) && left == pre + key + before && (left != "" ==> !IsBlank(left[0]))
    requires key == "" ==> before == ""
    ensures pre == "" && left == key + before
  {
    assert forall i :: 0 <= i < |pre| ==> left[i] == pre[i];
    assert "" + key + before == key + before;
  }

  lemma RightEdge(after: string, value: string, post: string, right: string)
    requires AllBlank(after) && AllBlank(post) && right == after + value + post
    requires right != "" ==> !IsBlank(right[|right| - 1])
    ensures post == "" && right == after + value
  {
    assert forall i :: |after + value| <= i < |right| ==> right[i] == post[i - |after + value|];
    assert after + value + "" == after + value;
  }

  lemma CommentLineIs(pre: string, core: string, post: string, cr: bool) returns (l: Line)
    requires AllBlank(pre) && core != "" && (core[0] == ';' || core[0] == '#')
    ensures l.CommentLine? && l.pre == pre && l.mark == core[0] && LineText(l) == pre + core + post + Cr(cr)
  {
    l := CommentLine(pre, core[0], core[1..] + post + Cr(cr));
    assert core == [core[0]] + core[1..];
    assert pre + core + post + Cr(cr) == pre + ([core[0]] + (core[1..] + post + Cr(cr)));
  }

  lemma HeaderLineIs(pre: string, core: string, post: string, cr: bool) returns (l: Line)
    requires AllBlank(pre) && AllBlank(post) && core != "" && core[0] == '[' && core[|core| - 1] == ']'
    ensures l.HeaderLine? && l.pre == pre && l.post == post && LineText(l) == pre + core + post + Cr(cr)
  {
    l := HeaderLine(pre, core[1..|core| - 1], post, cr);
    assert core == "[" + core[1..|core| - 1] + "]";
  }

  /** What follows the equals sign ends as the line does. */
  lemma SameEnd(front: string, tail: string, cr: bool)
    requires CrSafe(front + tail, cr)
    ensures CrSafe(tail, cr)
  {
    assert tail != "" ==> (front + tail)[|front + tail| - 1] == tail[|tail| - 1];
  }

  lemma EntryText(pre: string, key: string, before: string, after: string, value: string, post: string, cr: bool)
    ensures pre + ((key + before) + ("=" + (after + value))) + post
         == pre + (key + before) + ("=" + (after + value + post))
    ensures pre + ((key + before) + ("=" + (after + value))) + post
         == (pre + (key + before) + ("=" + after)) + (value + post)
  {}

  lemma EntryLineIs(pre: string, core: string, post: string, cr: bool) returns (l: Line)
    requires AllBlank(pre) && AllBlank(post) && CrSafe(pre + core + post, cr)
    requires Trimmed(core) && '=' in core && core[0] != ';' && core[0] != '#'
    requires !(core[0] == '[' && core[|core| - 1] == ']')
    requires '\n' !in pre + core + post + Cr(cr)
    ensures ValidLine(l) && LineText(l) == pre + core + post + Cr(cr)
  {
    var key, before, after, value := EntrySplits(core);
    l := EntryLine(pre, key, before, after, value, post, cr);
    EntryText(pre, key, before, after, value, post, cr);
    SameEnd(pre + (key + before) + ("=" + after), value + post, cr);
  }

  lemma JunkLineIs(pre: string, core: string, post: string, cr: bool) returns (l: Line)
    requires AllBlank(pre) && AllBlank(post) && CrSafe(pre + core + post, cr) && IsJunk(core)
    requires '\n' !in pre + core + post + Cr(cr)
    ensures ValidLine(l) && LineText(l) == pre + core + post + Cr(cr)
  {
    l := JunkLine(pre, core, post, cr);
    assert pre + core + post == pre + (core + post);
  }

  /** Whatever a line is, it is one of the five kinds. */
  lemma EveryLineIsValid(line: string) returns (l: Line)
    requires '\n' !in line
    ensures ValidLine(l) && LineText(l) == line
  {
    var cr := CrSplits(line);
    var pre, post := TrimSplits(DropCr(line));
    var core := Trim(DropCr(line));
    if core == "" {
      l := BlankLine(pre, cr);
      assert DropCr(line) == pre + "" + "" == pre;
    } else if core[0] == ';' || core[0] == '#' {
      l := CommentLineIs(pre, core, post, cr);
    } else if core[0] == '[' && core[|core| - 1] == ']' {
      l := HeaderLineIs(pre, core, post, cr);
    } else if '=' in core {
      l := EntryLineIs(pre, core, post, cr);
    } else {
      l := JunkLineIs(pre, core, post, cr);
    }
  }

  lemma OneMoreLine(l: Line, doc: seq<Line>)
    requires ValidLine(l)
    ensures Printed([l] + doc) == LineText(l) + ("\n" + Printed(doc))
    ensures Lines(Printed([l] + doc)) == [LineText(l)] + Lines(Printed(doc))
  {
    assert ([l] + doc)[1..] == doc;
    FirstLine(LineText(l), Printed(doc));
  }

  /** Every text is a document, but for a newline missing at its end. */
  lemma {:induction false} EveryTextIsADocument(text: string) returns (doc: seq<Line>)
    ensures forall l <- doc :: ValidLine(l)
    ensures Printed(doc) == text || Printed(doc) == text + "\n"
    ensures Lines(Printed(doc)) == Lines(text)
    decreases |text|
  {
    if text == "" {
      return [];
    }
    var newline := IndexOf(text, '\n');
    if newline.Some? {
      var line, rest := text[..newline.value], text[newline.value + 1..];
      assert text == line + ("\n" + rest);
      assert line + ("\n" + (rest + "\n")) == text + "\n";
      var l := EveryLineIsValid(line);
      var more := EveryTextIsADocument(rest);
      OneMoreLine(l, more);
      doc := [l] + more;
    } else {
      var l := EveryLineIsValid(text);
      OneMoreLine(l, []);
      LastLine(text);
      assert text + ("\n" + "") == text + "\n";
      doc := [l];
      assert [l] + [] == doc;
    }
  }

  /** So for any text at all: it is a document, and a key has the last value that
      document gives it in its section. */
  lemma TextSaysLast(text: string, section: string, key: string) returns (doc: seq<Line>)
    ensures forall l <- doc :: ValidLine(l)
    ensures Printed(doc) == text || Printed(doc) == text + "\n"
    ensures Lookup(Parsed(text), section, key) == LastGiven(Items(doc), "", section, key)
  {
    doc := EveryTextIsADocument(text);
    FileSaysLast(doc, section, key);
  }

  // ----- round trip -----

  /** Settings that a file can hold: no empty section, and names, keys and
      values that survive their lines. */
  predicate PrintableSections(sections: Sections) {
    forall s <- sections ::
      && sections[s] != map[] && '\n' !in s
      && forall k <- sections[s] :: Printable(k, sections[s][k]) && '\n' !in k && '\n' !in sections[s][k]
  }

  function EntryLines(m: map<string, string>, keys: seq<string>): seq<Line>
    requires forall k <- keys :: k in m
  {
    if keys == [] then []
    else [EntryLine("", keys[0], " ", " ", m[keys[0]], "", false)] + EntryLines(m, keys[1..])
  }

  /** The settings printed in some order of the sections and of their keys. */
  function SectionLines(sections: Sections, names: seq<string>, keys: map<string, seq<string>>): seq<Line>
    requires forall s <- names :: s in sections && s in keys && forall k <- keys[s] :: k in sections[s]
  {
    if names == [] then []
    else
      [HeaderLine("", names[0], "", false)] + EntryLines(sections[names[0]], keys[names[0]])
        + SectionLines(sections, names[1..], keys)
  }

  ghost predicate Enumerates(names: seq<string>, keys: map<string, seq<string>>, sections: Sections) {
    && (forall s :: s in names <==> s in sections)
    && forall s <- names :: s in keys && forall k :: k in keys[s] <==> k in sections[s]
  }

  lemma {:induction false} EvaluatedConcat(ini: Ini, a: seq<Item>, b: seq<Item>)
    ensures Evaluated(ini, a + b) == Evaluated(Evaluated(ini, a), b)
    decreases |a|
  {
    if a == [] {
      assert a + b == b;
    } else {
      assert (a + b)[1..] == a[1..] + b;
      EvaluatedConcat(Applied(ini, a[0]), a[1..], b);
    }
  }

  lemma {:induction false} ItemsConcat(a: seq<Line>, b: seq<Line>)
    ensures Items(a + b) == Items(a) + Items(b)
  {
    if a == [] {
      assert a + b == b;
    } else {
      assert (a + b)[1..] == a[1..] + b;
      ItemsConcat(a[1..], b);
    }
  }

  function Current(ini: Ini): map<string, string> {
    if ini.section in ini.sections then ini.sections[ini.section] else map[]
  }

  function Picked<T>(m: map<string, T>, keys: seq<string>): map<string, T>
    requires forall k <- keys :: k in m
  {
    map k | k in keys :: m[k]
  }

  lemma PickedStep<T>(before: map<string, T>, m: map<string, T>, keys: seq<string>)
    requires keys != [] && forall k <- keys :: k in m
    ensures before[keys[0] := m[keys[0]]] + Picked(m, keys[1..]) == before + Picked(m, keys)
  {
    assert forall k :: k in keys <==> k == keys[0] || k in keys[1..];
  }

  lemma {:induction false} EntriesEvaluate(ini: Ini, m: map<string, string>, keys: seq<string>)
    requires keys != [] && forall k <- keys :: k in m
    ensures Evaluated(ini, Items(EntryLines(m, keys)))
         == ini.(sections := ini.sections[ini.section := Current(ini) + Picked(m, keys)])
    decreases |keys|
  {
    var lines := EntryLines(m, keys);
    var ini' := Applied(ini, Entry(keys[0], m[keys[0]]));
    assert lines[1..] == EntryLines(m, keys[1..]);
    assert Items(lines)[1..] == Items(lines[1..]);
    PickedStep(Current(ini), m, keys);
    if keys[1..] == [] {
      assert Current(ini') + Picked(m, keys[1..]) == Current(ini');
    } else {
      EntriesEvaluate(ini', m, keys[1..]);
    }
  }

  /** One printed section, read into settings that may hold part of it already. */
  lemma SectionEvaluates(ini: Ini, s: string, m: map<string, string>, keys: seq<string>)
    requires m != map[] && forall k :: k in keys <==> k in m
    requires s in ini.sections ==> ini.sections[s] == m
    ensures Evaluated(ini, Items([HeaderLine("", s, "", false)] + EntryLines(m, keys))).sections == ini.sections[s := m]
  {
    var entries := EntryLines(m, keys);
    var lines := [HeaderLine("", s, "", false)] + entries;
    assert lines[1..] == entries;
    assert Items(lines)[1..] == Items(entries);
    var k :| k in m;
    assert k in keys;
    var ini1 := Applied(ini, Header(s));
    EntriesEvaluate(ini1, m, keys);
    assert Picked(m, keys) == m;
    assert Current(ini1) + m == m;
  }

  lemma {:induction false} SectionsEvaluate(
      ini: Ini, sections: Sections, names: seq<string>, keys: map<string, seq<string>>)
    requires forall s <- names ::
      s in sections && s in keys && sections[s] != map[] && forall k :: k in keys[s] <==> k in sections[s]
    requires forall s <- ini.sections :: s in sections && ini.sections[s] == sections[s]
    ensures Evaluated(ini, Items(SectionLines(sections, names, keys))).sections
         == ini.sections + Picked(sections, names)
    decreases |names|
  {
    if names != [] {
      var s := names[0];
      var block := [HeaderLine("", s, "", false)] + EntryLines(sections[s], keys[s]);
      var rest := SectionLines(sections, names[1..], keys);
      ItemsConcat(block, rest);
      EvaluatedConcat(ini, Items(block), Items(rest));
      SectionEvaluates(ini, s, sections[s], keys[s]);
      SectionsEvaluate(Evaluated(ini, Items(block)), sections, names[1..], keys);
      PickedStep(ini.sections, sections, names);
    }
  }

  lemma {:induction false} EntryLinesAreValid(m: map<string, string>, keys: seq<string>)
    requires forall k <- keys :: k in m && Printable(k, m[k]) && '\n' !in k && '\n' !in m[k]
    ensures forall l <- EntryLines(m, keys) :: ValidLine(l)
  {
    if keys != [] {
      EntryLinesAreValid(m, keys[1..]);
    }
  }

  lemma {:induction false} SectionLinesAreValid(sections: Sections, names: seq<string>, keys: map<string, seq<string>>)
    requires PrintableSections(sections)
    requires forall s <- names :: s in sections && s in keys && forall k <- keys[s] :: k in sections[s]
    ensures forall l <- SectionLines(sections, names, keys) :: ValidLine(l)
  {
    if names != [] {
      EntryLinesAreValid(sections[names[0]], keys[names[0]]);
      SectionLinesAreValid(sections, names[1..], keys);
    }
  }

  lemma AllSectionsEvaluate(sections: Sections, names: seq<string>, keys: map<string, seq<string>>)
    requires Enumerates(names, keys, sections) && forall s <- sections :: sections[s] != map[]
    ensures Evaluated(EMPTY, Items(SectionLines(sections, names, keys))).sections == sections
  {
    SectionsEvaluate(EMPTY, sections, names, keys);
    assert map[] + Picked(sections, names) == sections;
  }

  /** Parsing the printed settings gives the settings back, in whatever order
      their sections and keys are printed. */
  lemma PrintedSettingsParseBack(sections: Sections, names: seq<string>, keys: map<string, seq<string>>)
    requires PrintableSections(sections) && Enumerates(names, keys, sections)
    ensures Parsed(Printed(SectionLines(sections, names, keys))) == sections
  {
    SectionLinesAreValid(sections, names, keys);
    DocumentMeaning(SectionLines(sections, names, keys), EMPTY);
    AllSectionsEvaluate(sections, names, keys);
  }
}
