/** Webhook bodies: JSON inside a shell word (UE4SS/src/DiscordWebhook.cpp).
    A `char` stands for one byte; bytes from 0x20 up are passed through. */
module DiscordWebhook {
  import opened Text
  import opened Numerals

  // ----- what the writers produce -----

  function LowerHex(d: nat): char
    requires d < 16
  {
    if d < 10 then '0' + d as char else 'a' + (d - 10) as char
  }

  function EscapedChar(c: char): string {
    if c == '"' then "\\\""
    else if c == '\\' then "\\\\"
    else if c == '\n' then "\\n"
    else if c == '\r' then "\\r"
    else if c == '\t' then "\\t"
    else if c as int < 0x20 then "\\u00" + [LowerHex(c as int / 16), LowerHex(c as int % 16)]
    else [c]
  }

  function Escaped(s: string): string {
    if s == "" then "" else EscapedChar(s[0]) + Escaped(s[1..])
  }

  function QuotedChar(c: char): string { if c == '\'' then "'\\''" else [c] }

  function Quoted(s: string): string {
    if s == "" then "" else QuotedChar(s[0]) + Quoted(s[1..])
  }

  /** `std::to_string(int)` */
  function IntText(n: int): string {
    if n < 0 then "-" + Digits(-n, Dec) else Digits(n, Dec)
  }

  function MessageBody(message: string): string {
    "{\"content\":\"" + Escaped(message) + "\"}"
  }

  function EmbedBody(title: string, description: string, color: int): string {
    "{\"embeds\":[{\"title\":\"" + Escaped(title) + "\",\"description\":\"" + Escaped(description)
      + "\",\"color\":" + IntText(color) + "}]}"
  }

  const STATUS := "%{http_code}"
  const CONTENT_TYPE := "Content-Type: application/json"

  const CURL :=
    "curl " + ("-s " + ("-o " + ("/dev/null " + ("-w " + (("'" + STATUS + "' ") + ("-X " + ("POST " + ("-H "
      + (("'" + CONTENT_TYPE + "' ") + "-d ")))))))))

  function Command(url: string, body: string): string {
    CURL + ("'" + (Quoted(body) + ("'" + (" '" + url + "' 2>/dev/null"))))
  }

  // ----- the writers -----

  lemma {:induction false} EscapedConcat(a: string, b: string)
    ensures Escaped(a + b) == Escaped(a) + Escaped(b)
  {
    if a == "" {
      assert a + b == b;
    } else {
      assert (a + b)[1..] == a[1..] + b;
      EscapedConcat(a[1..], b);
    }
  }

  lemma {:induction false} QuotedConcat(a: string, b: string)
    ensures Quoted(a + b) == Quoted(a) + Quoted(b)
  {
    if a == "" {
      assert a + b == b;
    } else {
      assert (a + b)[1..] == a[1..] + b;
      QuotedConcat(a[1..], b);
    }
  }

  /** `url_escape_json` */
  method EscapeJson(s: string) returns (out: string)
    ensures out == Escaped(s)
  {
    out := "";
    for i := 0 to |s|
      invariant out == Escaped(s[..i])
    {
      var c := s[i];
      EscapedConcat(s[..i], [c]);
      assert s[..i + 1] == s[..i] + [c];
      assert Escaped([c]) == EscapedChar(c) by { assert [c][1..] == ""; }
      if c == '"' {
        out := out + "\\\"";
      } else if c == '\\' {
        out := out + "\\\\";
      } else if c == '\n' {
        out := out + "\\n";
      } else if c == '\r' {
        out := out + "\\r";
      } else if c == '\t' {
        out := out + "\\t";
      } else if c as int < 0x20 {
        out := out + ("\\u00" + [LowerHex(c as int / 16), LowerHex(c as int % 16)]);
      } else {
        out := out + [c];
      }
    }
    assert s[..|s|] == s;
  }

  method QuoteBody(body: string) returns (out: string)
    ensures out == Quoted(body)
  {
    out := "";
    for i := 0 to |body|
      invariant out == Quoted(body[..i])
    {
      var c := body[i];
      QuotedConcat(body[..i], [c]);
      assert body[..i + 1] == body[..i] + [c];
      assert Quoted([c]) == QuotedChar(c) by { assert [c][1..] == ""; }
      if c == '\'' {
        out := out + "'\\''";
      } else {
        out := out + [c];
      }
    }
    assert body[..|body|] == body;
  }

  /** The command `curl_post` hands to the shell. */
  method CurlCommand(url: string, body: string) returns (cmd: string)
    ensures cmd == Command(url, body)
  {
    var quoted := QuoteBody(body);
    cmd := CURL + "'" + quoted;
    cmd := cmd + "' '" + url + "' 2>/dev/null";
    assert cmd == CURL + ("'" + (quoted + ("'" + (" '" + url + "' 2>/dev/null"))));
  }

  method SendMessage(url: string, message: string) returns (cmd: Option<string>)
    ensures cmd == if url == "" then None else Some(Command(url, MessageBody(message)))
  {
    if url == "" {
      return None;
    }
    var escaped := EscapeJson(message);
    var json := "{\"content\":\"";
    json := json + escaped;
    json := json + "\"}";
    var c := CurlCommand(url, json);
    cmd := Some(c);
  }

  method SendEmbed(url: string, title: string, description: string, color: int) returns (cmd: Option<string>)
    ensures cmd == if url == "" then None else Some(Command(url, EmbedBody(title, description, color)))
  {
    if url == "" {
      return None;
    }
    var json := "{\"embeds\":[{\"title\":\"";
    var escaped := EscapeJson(title);
    json := json + escaped;
    json := json + "\",\"description\":\"";
    escaped := EscapeJson(description);
    json := json + escaped;
    json := json + "\",\"color\":";
    json := json + IntText(color);
    json := json + "}]}";
    var c := CurlCommand(url, json);
    cmd := Some(c);
  }

  // ----- the shell's reading of a word (section 2.2 of POSIX.1-2017 XCU) -----

  datatype Parsed<+T> = Parsed(value: T, rest: string)

  predicate IsShellBlank(c: char) { c == ' ' || c == '\t' || c == '\n' }

  /** Characters that need quoting to be literal, besides the ones handled below. */
  predicate IsShellSpecial(c: char) {
    c in {'|', '&', ';', '<', '>', '(', ')', '$', '`', '"', '*', '?', '[', '#', '~', '=', '%'}
  }

  function Prepend(c: char, p: Option<Parsed<string>>): Option<Parsed<string>> {
    match p { case Some(w) => Some(Parsed([c] + w.value, w.rest)) case None => None }
  }

  /** The word at the start of `s`, with its quoting removed: single quotes keep
      everything up to the next one, a backslash keeps the next character. */
  function Word(s: string, inQuotes: bool): Option<Parsed<string>> {
    if inQuotes then
      if s == "" then None
      else if s[0] == '\'' then Word(s[1..], false)
      else Prepend(s[0], Word(s[1..], true))
    else if s == "" || IsShellBlank(s[0]) then Some(Parsed("", s))
    else if s[0] == '\'' then Word(s[1..], true)
    else if s[0] == '\\' then if |s| == 1 then None else Prepend(s[1], Word(s[2..], false))
    else if IsShellSpecial(s[0]) then None
    else Prepend(s[0], Word(s[1..], false))
  }

  function WordAfter(text: string, p: Option<Parsed<string>>): Option<Parsed<string>> {
    match p { case Some(w) => Some(Parsed(text + w.value, w.rest)) case None => None }
  }

  lemma PrependAfter(c: char, text: string, p: Option<Parsed<string>>)
    ensures Prepend(c, WordAfter(text, p)) == WordAfter([c] + text, p)
  {
    if p.Some? { assert [c] + (text + p.value.value) == [c] + text + p.value.value; }
  }

  /** `'\''` closes the quotes, keeps a quote, and opens them again. */
  lemma QuoteReads(rest: string)
    ensures Word("'\\''" + rest, true) == Prepend('\'', Word(rest, true))
  {
    var s := "'\\''" + rest;
    assert s[1..] == "\\''" + rest;
    assert s[1..][2..] == "'" + rest;
    assert s[1..][2..][1..] == rest;
    assert Word(s[1..], false) == Prepend('\'', Word(s[1..][2..], false));
  }

  lemma {:induction false} QuotedReads(s: string, k: string)
    ensures Word(Quoted(s) + ("'" + k), true) == WordAfter(s, Word(k, false))
  {
    var tail := "'" + k;
    if s == "" {
      assert Quoted(s) + tail == tail && tail[1..] == k;
      var p := Word(k, false);
      assert p.Some? ==> "" + p.value.value == p.value.value;
    } else {
      var rest := Quoted(s[1..]) + tail;
      QuotedReads(s[1..], k);
      PrependAfter(s[0], s[1..], Word(k, false));
      assert [s[0]] + s[1..] == s;
      assert Quoted(s) + tail == QuotedChar(s[0]) + rest;
      if s[0] == '\'' {
        QuoteReads(rest);
      } else {
        assert ([s[0]] + rest)[1..] == rest;
      }
    }
  }

  /** The body is one shell word, whatever it contains. */
  lemma BodyIsOneWord(url: string, body: string)
    ensures StartsWith(Command(url, body), CURL)
    ensures Word(Command(url, body)[|CURL|..], false) == Some(Parsed(body, " '" + url + "' 2>/dev/null"))
  {
    var rest := " '" + url + "' 2>/dev/null";
    var tail := Quoted(body) + ("'" + rest);
    assert Command(url, body) == CURL + ("'" + tail);
    assert Command(url, body)[|CURL|..] == "'" + tail;
    assert ("'" + tail)[1..] == tail;
    QuotedReads(body, rest);
    assert body + "" == body;
  }

  /** Closing quotes costs a character, and so does a quote that is kept. */
  lemma {:induction false} WordCost(s: string, inQuotes: bool)
    requires Word(s, inQuotes).Some?
    ensures var w := Word(s, inQuotes).value;
      |w.value| + |w.rest| + (if inQuotes then 1 else 0) + (if '\'' in w.value then 1 else 0) <= |s|
    decreases |s|
  {
    if inQuotes {
      WordCost(s[1..], s[0] != '\'');
    } else if s != "" && !IsShellBlank(s[0]) {
      if s[0] == '\'' {
        WordCost(s[1..], true);
      } else if s[0] == '\\' {
        WordCost(s[2..], false);
      } else {
        WordCost(s[1..], false);
      }
    }
  }

  lemma {:induction false} UnquotedIsQuoted(s: string)
    requires '\'' !in s
    ensures Quoted(s) == s
  {
    if s != "" {
      assert s[0] in s && forall c <- s[1..] :: c in s;
      UnquotedIsQuoted(s[1..]);
    }
  }

  const REDIRECTION := " 2>/dev/null"

  /** The next word is the URL, and only the redirection is left, exactly when the
      URL has no single quote. */
  lemma UrlIsOneWordIff(url: string)
    ensures Word("'" + (url + ("'" + REDIRECTION)), false) == Some(Parsed(url, REDIRECTION)) <==> '\'' !in url
  {
    var inner := url + ("'" + REDIRECTION);
    var s := "'" + inner;
    assert s[1..] == inner;
    if '\'' in url {
      if Word(s, false) == Some(Parsed(url, REDIRECTION)) {
        WordCost(inner, true);
      }
    } else {
      UnquotedIsQuoted(url);
      QuotedReads(url, REDIRECTION);
      assert Word(REDIRECTION, false) == Some(Parsed("", REDIRECTION));
      assert url + "" == url;
    }
  }

  /** The whole command: after the fixed part the shell reads the body, the URL and
      the redirection, exactly when the URL has no single quote. */
  lemma CommandReadsIff(url: string, body: string)
    ensures var first := Word(Command(url, body)[|CURL|..], false);
      && first.Some? && first.value.value == body && first.value.rest != "" && IsShellBlank(first.value.rest[0])
      && (Word(first.value.rest[1..], false) == Some(Parsed(url, REDIRECTION)) <==> '\'' !in url)
  {
    BodyIsOneWord(url, body);
    UrlIsOneWordIff(url);
    AfterBody(url);
  }

  lemma AfterBody(url: string)
    ensures var rest := " '" + url + "' 2>/dev/null";
      rest == " " + ("'" + (url + ("'" + REDIRECTION))) && rest[1..] == "'" + (url + ("'" + REDIRECTION))
  {
    assert "' 2>/dev/null" == "'" + REDIRECTION && " '" == " " + "'";
  }

  /** The next `n` words, each followed by a blank. */
  function Words(s: string, n: nat): Option<Parsed<seq<string>>>
    decreases n
  {
    if n == 0 then Some(Parsed([], s))
    else match Word(s, false)
      case None => None
      case Some(w) =>
        if w.rest == "" || !IsShellBlank(w.rest[0]) then None else Later(w.value, Words(w.rest[1..], n - 1))
  }

  function Later(word: string, more: Option<Parsed<seq<string>>>): Option<Parsed<seq<string>>> {
    match more { case Some(m) => Some(Parsed([word] + m.value, m.rest)) case None => None }
  }

  predicate IsPlainWord(w: string) {
    forall c <- w :: !IsShellBlank(c) && !IsShellSpecial(c) && c != '\'' && c != '\\'
  }

  lemma {:induction false} PlainWordReads(w: string, k: string)
    requires IsPlainWord(w)
    ensures Word(w + (" " + k), false) == Some(Parsed(w, " " + k))
  {
    if w == "" {
      assert w + (" " + k) == " " + k;
    } else {
      assert w[0] in w && forall c <- w[1..] :: c in w;
      assert (w + (" " + k))[1..] == w[1..] + (" " + k);
      PlainWordReads(w[1..], k);
      assert [w[0]] + w[1..] == w;
    }
  }

  /** The text is the word and a blank, with the word in single quotes or plain. */
  predicate ReadsAs(text: string, word: string) {
    || (IsPlainWord(word) && text == word + " ")
    || ('\'' !in word && text == "'" + word + "' ")
  }

  lemma NextWord(text: string, word: string, k: string, n: nat)
    requires ReadsAs(text, word)
    ensures Words(text + k, n + 1) == Later(word, Words(k, n))
  {
    assert (" " + k)[1..] == k;
    if IsPlainWord(word) && text == word + " " {
      assert text + k == word + (" " + k);
      PlainWordReads(word, k);
    } else {
      var tail := "'" + (" " + k);
      assert text + k == "'" + (word + tail) && ("'" + (word + tail))[1..] == word + tail;
      UnquotedIsQuoted(word);
      QuotedReads(word, " " + k);
      assert word + "" == word;
    }
  }

  function LaterAll(words: seq<string>, more: Option<Parsed<seq<string>>>): Option<Parsed<seq<string>>> {
    match more { case Some(m) => Some(Parsed(words + m.value, m.rest)) case None => None }
  }

  function Concatenated(texts: seq<string>, k: string): string {
    if texts == [] then k else texts[0] + Concatenated(texts[1..], k)
  }

  lemma {:induction false} NextWords(texts: seq<string>, words: seq<string>, k: string, n: nat)
    requires |texts| == |words| && forall i :: 0 <= i < |texts| ==> ReadsAs(texts[i], words[i])
    ensures Words(Concatenated(texts, k), |texts| + n) == LaterAll(words, Words(k, n))
  {
    var more := Words(k, n);
    if texts == [] {
      assert more.Some? ==> words + more.value.value == more.value.value;
    } else {
      NextWord(texts[0], words[0], Concatenated(texts[1..], k), |texts| - 1 + n);
      NextWords(texts[1..], words[1..], k, n);
      assert more.Some? ==> [words[0]] + (words[1..] + more.value.value) == words + more.value.value;
    }
  }

  lemma {:induction false} ConcatenatedBefore(texts: seq<string>, k: string)
    ensures Concatenated(texts, "") + k == Concatenated(texts, k)
  {
    if texts == [] {
      assert "" + k == k;
    } else {
      ConcatenatedBefore(texts[1..], k);
    }
  }

  /** What `curl` is called with before the body. */
  const OPTIONS: seq<string> := [
    "curl", "-s", "-o", "/dev/null", "-w", "%{http_code}", "-X", "POST", "-H", "Content-Type: application/json", "-d"]

  lemma OneMoreText(text: string, texts: seq<string>)
    ensures Concatenated([text] + texts, "") == text + Concatenated(texts, "")
  {
    assert ([text] + texts)[1..] == texts;
  }

  /** The texts of the options on the command line. */
  function OptionTexts(first: seq<string>, second: seq<string>): seq<string>
    requires |first| == 5 && |second| == 6
  {
    [first[0]] + ([first[1]] + ([first[2]] + ([first[3]] + ([first[4]] + ([second[0]] + ([second[1]]
      + ([second[2]] + ([second[3]] + ([second[4]] + ([second[5]] + []))))))))))
  }

  lemma OptionTextsConcatenate(first: seq<string>, second: seq<string>)
    requires |first| == 5 && |second| == 6
    ensures |OptionTexts(first, second)| == 11
    ensures forall i :: 0 <= i < 11 ==> OptionTexts(first, second)[i] == (first + second)[i]
    ensures Concatenated(OptionTexts(first, second), "")
         == first[0] + (first[1] + (first[2] + (first[3] + (first[4] + (second[0] + (second[1]
              + (second[2] + (second[3] + (second[4] + (second[5] + ""))))))))))
  {
    var t := [];
    OneMoreText(second[5], t); t := [second[5]] + t;
    OneMoreText(second[4], t); t := [second[4]] + t;
    OneMoreText(second[3], t); t := [second[3]] + t;
    OneMoreText(second[2], t); t := [second[2]] + t;
    OneMoreText(second[1], t); t := [second[1]] + t;
    OneMoreText(second[0], t); t := [second[0]] + t;
    OneMoreText(first[4], t); t := [first[4]] + t;
    OneMoreText(first[3], t); t := [first[3]] + t;
    OneMoreText(first[2], t); t := [first[2]] + t;
    OneMoreText(first[1], t); t := [first[1]] + t;
    OneMoreText(first[0], t);
  }

  lemma LettersArePlain(w: string)
    requires forall c <- w :: 'a' <= c <= 'z' || 'A' <= c <= 'Z' || c == '-' || c == '/'
    ensures ReadsAs(w + " ", w)
  {}

  lemma PlainOptions()
    ensures ReadsAs("curl ", "curl") && ReadsAs("-s ", "-s") && ReadsAs("-o ", "-o") && ReadsAs("-w ", "-w")
    ensures ReadsAs("-X ", "-X") && ReadsAs("POST ", "POST") && ReadsAs("-H ", "-H") && ReadsAs("-d ", "-d")
    ensures ReadsAs("/dev/null ", "/dev/null")
  {
    LettersArePlain("curl");
    assert "curl" + " " == "curl ";
    LettersArePlain("-s");
    assert "-s" + " " == "-s ";
    LettersArePlain("-o");
    assert "-o" + " " == "-o ";
    LettersArePlain("-w");
    assert "-w" + " " == "-w ";
    LettersArePlain("-X");
    assert "-X" + " " == "-X ";
    LettersArePlain("POST");
    assert "POST" + " " == "POST ";
    LettersArePlain("-H");
    assert "-H" + " " == "-H ";
    LettersArePlain("-d");
    assert "-d" + " " == "-d ";
    LettersArePlain("/dev/null");
    assert "/dev/null" + " " == "/dev/null ";
  }

  lemma QuotedIsRead(word: string)
    requires '\'' !in word
    ensures ReadsAs("'" + word + "' ", word)
  {}

  lemma OptionsRead() returns (texts: seq<string>)
    ensures CURL == Concatenated(texts, "") && |texts| == |OPTIONS| == 11
    ensures forall i :: 0 <= i < |texts| ==> ReadsAs(texts[i], OPTIONS[i])
  {
    var first := ["curl ", "-s ", "-o ", "/dev/null ", "-w "];
    var second := ["'" + STATUS + "' ", "-X ", "POST ", "-H ", "'" + CONTENT_TYPE + "' ", "-d "];
    texts := OptionTexts(first, second);
    OptionTextsConcatenate(first, second);
    PlainOptions();
    QuotedIsRead(STATUS);
    QuotedIsRead(CONTENT_TYPE);
  }

  lemma BodyWord(body: string, rest: string)
    ensures Words("'" + (Quoted(body) + ("'" + (" " + rest))), 1) == Some(Parsed([body], rest))
  {
    var tail := Quoted(body) + ("'" + (" " + rest));
    var s := "'" + tail;
    assert s[1..] == tail;
    QuotedReads(body, " " + rest);
    assert body + "" == body && (" " + rest)[1..] == rest;
    assert Word(s, false) == Some(Parsed(body, " " + rest));
    assert Words(s, 1) == Later(body, Words(rest, 0)) && [body] + [] == [body];
  }

  /** The words the shell passes to `curl`, for any URL and any body: the options,
      the body as the argument of `-d`, and then the URL and the redirection. */
  lemma CommandWords(url: string, body: string)
    ensures Words(Command(url, body), 12) == Some(Parsed(OPTIONS + [body], "'" + (url + ("'" + REDIRECTION))))
  {
    var rest := "'" + (url + ("'" + REDIRECTION));
    var word := "'" + (Quoted(body) + ("'" + (" " + rest)));
    assert " '" + url + "' 2>/dev/null" == " " + rest;
    var texts := OptionsRead();
    ConcatenatedBefore(texts, word);
    NextWords(texts, OPTIONS, word, 1);
    BodyWord(body, rest);
  }

  // ----- a JSON reader (RFC 8259), without insignificant whitespace -----

  datatype Json = Str(text: string) | Num(n: int) | Arr(items: seq<Json>) | Obj(members: seq<(string, Json)>)

  /** Section 7: the rest of a string, after its opening quotation mark. */
  function ParseString(s: string): (r: Option<Parsed<string>>)
    ensures r.Some? ==> |r.value.rest| < |s|
  {
    if s == "" || s[0] as int < 0x20 then None
    else if s[0] == '"' then Some(Parsed("", s[1..]))
    else if s[0] != '\\' then Prepend(s[0], ParseString(s[1..]))
    else if |s| < 2 then None
    else if s[1] == 'u' then
      if |s| < 6 || !AllDigits(s[2..6], Hex) then None
      else
        var code := Value(s[2..6], Hex);
        if 0xD800 <= code < 0xE000 || code >= 0x10000 then None else Prepend(code as char, ParseString(s[6..]))
    else if s[1] == '"' || s[1] == '\\' || s[1] == '/' then Prepend(s[1], ParseString(s[2..]))
    else if s[1] == 'b' then Prepend(8 as char, ParseString(s[2..]))
    else if s[1] == 'f' then Prepend(12 as char, ParseString(s[2..]))
    else if s[1] == 'n' then Prepend('\n', ParseString(s[2..]))
    else if s[1] == 'r' then Prepend('\r', ParseString(s[2..]))
    else if s[1] == 't' then Prepend('\t', ParseString(s[2..]))
    else None
  }

  /** Section 6, integers only. */
  function ParseNumber(s: string): (r: Option<Parsed<int>>)
    ensures r.Some? ==> |r.value.rest| < |s|
  {
    if s != "" && s[0] == '-' then ParseDigits(s[1..], true) else ParseDigits(s, false)
  }

  function ParseDigits(s: string, negative: bool): (r: Option<Parsed<int>>)
    ensures r.Some? ==> |r.value.rest| < |s|
  {
    var n := DigitRun(s, Dec);
    var rest := s[n..];
    if n == 0 || (n > 1 && s[0] == '0') || (rest != "" && rest[0] in {'.', 'e', 'E'}) then None
    else
      DigitRunIsDigits(s, Dec);
      var value: int := Value(s[..n], Dec);
      Some(Parsed(if negative then -value else value, rest))
  }

  /** Section 3. */
  function ParseValue(s: string): (r: Option<Parsed<Json>>)
    ensures r.Some? ==> |r.value.rest| < |s|
    decreases |s|, 0
  {
    if s == "" then None
    else if s[0] == '"' then
      match ParseString(s[1..])
      case Some(p) => Some(Parsed(Str(p.value), p.rest))
      case None => None
    else if s[0] == '{' then
      if |s| > 1 && s[1] == '}' then Some(Parsed(Obj([]), s[2..]))
      else match ParseMembers(s[1..])
        case Some(p) => Some(Parsed(Obj(p.value), p.rest))
        case None => None
    else if s[0] == '[' then
      if |s| > 1 && s[1] == ']' then Some(Parsed(Arr([]), s[2..]))
      else match ParseItems(s[1..])
        case Some(p) => Some(Parsed(Arr(p.value), p.rest))
        case None => None
    else match ParseNumber(s)
      case Some(p) => Some(Parsed(Num(p.value), p.rest))
      case None => None
  }

  /** Section 4: members up to and including the closing brace. */
  function ParseMembers(s: string): (r: Option<Parsed<seq<(string, Json)>>>)
    ensures r.Some? ==> |r.value.rest| < |s|
    decreases |s|, 1
  {
    if s == "" || s[0] != '"' then None
    else match ParseString(s[1..])
      case None => None
      case Some(name) =>
        if name.rest == "" || name.rest[0] != ':' then None
        else match ParseValue(name.rest[1..])
          case None => None
          case Some(v) =>
            if v.rest != "" && v.rest[0] == '}' then Some(Parsed([(name.value, v.value)], v.rest[1..]))
            else if v.rest != "" && v.rest[0] == ',' then
              match ParseMembers(v.rest[1..])
              case Some(more) => Some(Parsed([(name.value, v.value)] + more.value, more.rest))
              case None => None
            else None
  }

  /** Section 5: items up to and including the closing bracket. */
  function ParseItems(s: string): (r: Option<Parsed<seq<Json>>>)
    ensures r.Some? ==> |r.value.rest| < |s|
    decreases |s|, 1
  {
    match ParseValue(s)
    case None => None
    case Some(v) =>
      if v.rest != "" && v.rest[0] == ']' then Some(Parsed([v.value], v.rest[1..]))
      else if v.rest != "" && v.rest[0] == ',' then
        match ParseItems(v.rest[1..])
        case Some(more) => Some(Parsed([v.value] + more.value, more.rest))
        case None => None
      else None
  }

  function Decoded(text: string): Option<Json> {
    match ParseValue(text)
    case Some(p) => if p.rest == "" then Some(p.value) else None
    case None => None
  }

  // ----- what was written is what is read -----

  lemma HexReads(c: char)
    requires c as int < 0x20
    ensures var t := "00" + [LowerHex(c as int / 16), LowerHex(c as int % 16)];
      AllDigits(t, Hex) && Value(t, Hex) == c as int
  {
    var hi, lo := LowerHex(c as int / 16), LowerHex(c as int % 16);
    ValueOfAppended("", '0', Hex);
    ValueOfAppended("0", '0', Hex);
    ValueOfAppended("00", hi, Hex);
    ValueOfAppended("00" + [hi], lo, Hex);
    assert "" + ['0'] == "0" && "0" + ['0'] == "00";
    assert "00" + [hi] + [lo] == "00" + [hi, lo];
  }

  lemma EscapedCharReads(c: char, k: string)
    ensures ParseString(EscapedChar(c) + k) == Prepend(c, ParseString(k))
  {
    var e := EscapedChar(c);
    var s := e + k;
    assert s[|e|..] == k;
    if |e| == 6 { HexEscapeReads(c, k); }
  }

  lemma HexEscapeReads(c: char, k: string)
    requires |EscapedChar(c)| == 6
    ensures ParseString(EscapedChar(c) + k) == Prepend(c, ParseString(k))
  {
    var s := EscapedChar(c) + k;
    HexReads(c);
    assert s[2..6] == "00" + [LowerHex(c as int / 16), LowerHex(c as int % 16)];
    assert s[0] == '\\' && s[1] == 'u' && s[6..] == k;
  }

  /** An escaped string followed by a quotation mark reads as the string. */
  lemma {:induction false} EscapedReads(text: string, k: string)
    ensures ParseString(Escaped(text) + ("\"" + k)) == Some(Parsed(text, k))
  {
    var tail := "\"" + k;
    if text == "" {
      assert Escaped(text) + tail == tail && tail[1..] == k;
    } else {
      var rest := Escaped(text[1..]) + tail;
      assert ParseString(rest) == Some(Parsed(text[1..], k)) by { EscapedReads(text[1..], k); }
      assert ParseString(EscapedChar(text[0]) + rest) == Some(Parsed([text[0]] + text[1..], k)) by {
        EscapedCharReads(text[0], rest);
      }
      assert [text[0]] + text[1..] == text;
      EscapedSplits(text, tail);
    }
  }

  lemma EscapedSplits(text: string, tail: string)
    requires text != ""
    ensures Escaped(text) + tail == EscapedChar(text[0]) + (Escaped(text[1..]) + tail)
  {}

  predicate IsPlain(text: string) {
    forall c <- text :: c as int >= 0x20 && c != '"' && c != '\\'
  }

  lemma {:induction false} PlainIsEscaped(text: string)
    requires IsPlain(text)
    ensures Escaped(text) == text
  {
    if text != "" {
      assert text[0] in text;
      assert EscapedChar(text[0]) == [text[0]];
      assert IsPlain(text[1..]) by { assert forall c <- text[1..] :: c in text; }
      PlainIsEscaped(text[1..]);
      assert [text[0]] + text[1..] == text;
    }
  }

  lemma StringReads(text: string, k: string)
    ensures ParseValue("\"" + (Escaped(text) + ("\"" + k))) == Some(Parsed(Str(text), k))
  {
    var s := "\"" + (Escaped(text) + ("\"" + k));
    assert s[1..] == Escaped(text) + ("\"" + k);
    EscapedReads(text, k);
  }

  /** What the parser sees of a printed number: where it ends, what it is worth,
      and that it starts with no zero and no sign. */
  lemma RunOfDigits(n: nat, k: string)
    requires k == "" || !IsDigit(k[0], Dec)
    ensures var digits := Digits(n, Dec);
            && DigitRun(digits + k, Dec) == |digits| > 0
            && (digits + k)[..|digits|] == digits && (digits + k)[|digits|..] == k
            && AllDigits(digits, Dec) && Value(digits, Dec) == n
            && IsDigit((digits + k)[0], Dec)
            && (|digits| > 1 ==> (digits + k)[0] != '0')
  {
    var digits := Digits(n, Dec);
    DigitsRoundTrip(n, Dec);
    DigitRunStops(digits, k, Dec);
    assert (digits + k)[0] == digits[0] && digits[0] in digits;
    NoLeadingZero(n);
  }

  lemma DigitsRead(n: int, k: string, negative: bool)
    requires n >= 0 && k != "" && k[0] == '}'
    ensures ParseDigits(Digits(n, Dec) + k, negative) == Some(Parsed(if negative then -n else n, k))
  {
    RunOfDigits(n, k);
  }

  lemma IntReads(n: int, k: string)
    requires k != "" && k[0] == '}'
    ensures ParseNumber(IntText(n) + k) == Some(Parsed(n, k))
    ensures IntText(n) + k != "" && (IntText(n) + k)[0] !in {'"', '{', '['}
  {
    IntTextSplits(n, k);
    var abs := if n < 0 then -n else n;
    var s := Digits(abs, Dec) + k;
    DigitsRead(abs, k, n < 0);
    RunOfDigits(abs, k);
    if n < 0 { assert ("-" + s)[1..] == s; }
  }

  lemma IntTextSplits(n: int, k: string)
    ensures IntText(n) + k == if n < 0 then "-" + (Digits(-n, Dec) + k) else Digits(n, Dec) + k
  {}

  lemma ValueIsNumber(s: string, n: int, k: string)
    requires ParseNumber(s) == Some(Parsed(n, k))
    requires s != "" && s[0] != '"' && s[0] != '{' && s[0] != '['
    ensures ParseValue(s) == Some(Parsed(Num(n), k))
  {}

  lemma NumberReads(n: int, k: string)
    requires k != "" && k[0] == '}'
    ensures ParseValue(IntText(n) + k) == Some(Parsed(Num(n), k))
  {
    IntReads(n, k);
    ValueIsNumber(IntText(n) + k, n, k);
  }

  lemma {:induction false} NoLeadingZero(n: nat)
    ensures |Digits(n, Dec)| > 1 ==> Digits(n, Dec)[0] != '0'
    ensures n > 0 ==> Digits(n, Dec) != "" && Digits(n, Dec)[0] != '0'
  {
    if n >= 10 { NoLeadingZero(n / 10); }
  }

  /** A member's text, and what follows its value. */
  function MemberText(name: string, value: string): string { "\"" + (name + ("\":" + value)) }

  lemma NameReads(name: string, text: string)
    requires IsPlain(name)
    ensures var s := MemberText(name, text);
      s[0] == '"' && ParseString(s[1..]) == Some(Parsed(name, ":" + text)) && (":" + text)[1..] == text
  {
    PlainIsEscaped(name);
    EscapedReads(name, ":" + text);
    assert MemberText(name, text)[1..] == name + ("\"" + (":" + text));
  }

  lemma LastMemberReads(name: string, value: Json, text: string, k: string)
    requires IsPlain(name) && ParseValue(text) == Some(Parsed(value, "}" + k))
    ensures ParseMembers(MemberText(name, text)) == Some(Parsed([(name, value)], k))
  {
    NameReads(name, text);
    assert ("}" + k)[1..] == k;
  }

  lemma MemberReads(name: string, value: Json, text: string, more: string, members: seq<(string, Json)>, k: string)
    requires IsPlain(name) && ParseValue(text) == Some(Parsed(value, "," + more))
    requires ParseMembers(more) == Some(Parsed(members, k))
    ensures ParseMembers(MemberText(name, text)) == Some(Parsed([(name, value)] + members, k))
  {
    NameReads(name, text);
    assert ("," + more)[1..] == more;
  }

  lemma ObjectReads(inner: string, members: seq<(string, Json)>, k: string)
    requires inner != "" && inner[0] == '"' && ParseMembers(inner) == Some(Parsed(members, k))
    ensures ParseValue("{" + inner) == Some(Parsed(Obj(members), k))
  {
    assert ("{" + inner)[1..] == inner;
  }

  lemma SingletonReads(item: string, value: Json, k: string)
    requires item != "" && item[0] == '{' && ParseValue(item) == Some(Parsed(value, "]" + k))
    ensures ParseValue("[" + item) == Some(Parsed(Arr([value]), k))
  {
    assert ("[" + item)[1..] == item;
    assert ("]" + k)[1..] == k;
  }

  lemma PlainNames()
    ensures IsPlain("content") && IsPlain("title") && IsPlain("description") && IsPlain("color") && IsPlain("embeds")
  {}

  function StringText(text: string, k: string): string { "\"" + (Escaped(text) + ("\"" + k)) }

  lemma Reassociate(a: string, b: string, c: string)
    ensures a + (b + c) == (a + b) + c
  {}

  lemma MessageBodyText(message: string)
    ensures "{" + MemberText("content", StringText(message, "}")) == MessageBody(message)
  {
    var k := Escaped(message) + ("\"" + "}");
    Reassociate("\":", "\"", k);
    Reassociate("content", "\":\"", k);
    Reassociate("\"", "content\":\"", k);
    Reassociate("{", "\"content\":\"", k);
    Reassociate("{\"content\":\"", Escaped(message), "\"}");
    assert "\"" + "}" == "\"}";
    assert "\":" + "\"" == "\":\"";
    assert "content" + "\":\"" == "content\":\"";
    assert "\"" + "content\":\"" == "\"content\":\"";
    assert "{" + "\"content\":\"" == "{\"content\":\"";
  }

  /** Decoding the body of `send_message` gives the message. */
  lemma MessageDecodes(message: string)
    ensures Decoded(MessageBody(message)) == Some(Obj([("content", Str(message))]))
  {
    PlainNames();
    var text := StringText(message, "}");
    StringReads(message, "}");
    assert "}" + "" == "}";
    LastMemberReads("content", Str(message), text, "");
    ObjectReads(MemberText("content", text), [("content", Str(message))], "");
    MessageBodyText(message);
  }

  function EmbedFields(title: string, description: string, color: int): Json {
    Obj([("title", Str(title)), ("description", Str(description)), ("color", Num(color))])
  }

  /** The three members of the embed, up to the closing brackets. */
  lemma FieldsRead(title: string, description: string, color: int)
    ensures ParseValue("{" + MemberText("title", StringText(title, "," + MemberText("description",
              StringText(description, "," + MemberText("color", IntText(color) + ("}" + "]}")))))))
         == Some(Parsed(EmbedFields(title, description, color), "]" + "}"))
  {
    PlainNames();
    NumberReads(color, "}" + "]}");
    LastMemberReads("color", Num(color), IntText(color) + ("}" + "]}"), "]}");
    var c := MemberText("color", IntText(color) + ("}" + "]}"));
    StringReads(description, "," + c);
    MemberReads("description", Str(description), StringText(description, "," + c), c, [("color", Num(color))], "]}");
    var d := MemberText("description", StringText(description, "," + c));
    StringReads(title, "," + d);
    MemberReads("title", Str(title), StringText(title, "," + d), d,
                [("description", Str(description))] + [("color", Num(color))], "]}");
    var t := MemberText("title", StringText(title, "," + d));
    var members := [("title", Str(title))] + ([("description", Str(description))] + [("color", Num(color))]);
    ObjectReads(t, members, "]}");
    assert members == [("title", Str(title)), ("description", Str(description)), ("color", Num(color))];
    assert "]" + "}" == "]}";
  }

  lemma EmbedOpening(k: string)
    ensures "{" + MemberText("embeds", "[" + ("{" + MemberText("title", "\"" + k))) == "{\"embeds\":[{\"title\":\"" + k
  {
    Reassociate("\":", "\"", k);
    Reassociate("title", "\":\"", k);
    Reassociate("\"", "title\":\"", k);
    Reassociate("{", "\"title\":\"", k);
    Reassociate("[", "{\"title\":\"", k);
    Reassociate("\":", "[{\"title\":\"", k);
    Reassociate("embeds", "\":[{\"title\":\"", k);
    Reassociate("\"", "embeds\":[{\"title\":\"", k);
    Reassociate("{", "\"embeds\":[{\"title\":\"", k);
    assert "\":" + "\"" == "\":\"";
    assert "title" + "\":\"" == "title\":\"";
    assert "\"" + "title\":\"" == "\"title\":\"";
    assert "{" + "\"title\":\"" == "{\"title\":\"";
    assert "[" + "{\"title\":\"" == "[{\"title\":\"";
    assert "\":" + "[{\"title\":\"" == "\":[{\"title\":\"";
    assert "embeds" + "\":[{\"title\":\"" == "embeds\":[{\"title\":\"";
    assert "\"" + "embeds\":[{\"title\":\"" == "\"embeds\":[{\"title\":\"";
    assert "{" + "\"embeds\":[{\"title\":\"" == "{\"embeds\":[{\"title\":\"";
  }

  lemma DescriptionOpening(k: string)
    ensures "\"" + ("," + MemberText("description", "\"" + k)) == "\",\"description\":\"" + k
  {
    Reassociate("\":", "\"", k);
    Reassociate("description", "\":\"", k);
    Reassociate("\"", "description\":\"", k);
    Reassociate(",", "\"description\":\"", k);
    Reassociate("\"", ",\"description\":\"", k);
    assert "\":" + "\"" == "\":\"";
    assert "description" + "\":\"" == "description\":\"";
    assert "\"" + "description\":\"" == "\"description\":\"";
    assert "," + "\"description\":\"" == ",\"description\":\"";
    assert "\"" + ",\"description\":\"" == "\",\"description\":\"";
  }

  lemma ColorOpening(k: string)
    ensures "\"" + ("," + MemberText("color", k)) == "\",\"color\":" + k
  {
    Reassociate("color", "\":", k);
    Reassociate("\"", "color\":", k);
    Reassociate(",", "\"color\":", k);
    Reassociate("\"", ",\"color\":", k);
    assert "color" + "\":" == "color\":";
    assert "\"" + "color\":" == "\"color\":";
    assert "," + "\"color\":" == ",\"color\":";
    assert "\"" + ",\"color\":" == "\",\"color\":";
  }

  lemma SevenParts(a: string, b: string, c: string, d: string, e: string, f: string, g: string)
    ensures a + (b + (c + (d + (e + (f + g))))) == a + b + c + d + e + f + g
  {}

  lemma EmbedBodyText(title: string, description: string, color: int)
    ensures EmbedBody(title, description, color)
         == "{" + MemberText("embeds", "[" + ("{" + MemberText("title", StringText(title, "," + MemberText(
              "description",
              StringText(description, "," + MemberText("color", IntText(color) + ("}" + "]}"))))))))
  {
    var t, d, n := Escaped(title), Escaped(description), IntText(color);
    var end := "}" + "]}";
    assert end == "}]}";
    var fromColor := "\"" + ("," + MemberText("color", n + end));
    ColorOpening(n + end);
    var fromDescription := "\"" + ("," + MemberText("description", "\"" + (d + fromColor)));
    DescriptionOpening(d + fromColor);
    EmbedOpening(t + fromDescription);
    SevenParts("{\"embeds\":[{\"title\":\"", t, "\",\"description\":\"", d, "\",\"color\":", n, "}]}");
  }

  /** Decoding the body of `send_embed` gives the title, description and colour. */
  lemma EmbedDecodes(title: string, description: string, color: int)
    ensures Decoded(EmbedBody(title, description, color))
         == Some(Obj([("embeds", Arr([EmbedFields(title, description, color)]))]))
  {
    PlainNames();
    var c := MemberText("color", IntText(color) + ("}" + "]}"));
    var d := MemberText("description", StringText(description, "," + c));
    var item := "{" + MemberText("title", StringText(title, "," + d));
    var fields := EmbedFields(title, description, color);
    FieldsRead(title, description, color);
    SingletonReads(item, fields, "}");
    assert "}" + "" == "}";
    LastMemberReads("embeds", Arr([fields]), "[" + item, "");
    var inner := MemberText("embeds", "[" + item);
    ObjectReads(inner, [("embeds", Arr([fields]))], "");
    EmbedBodyText(title, description, color);
  }

  // ----- the whole command -----

  /** What the receiver of the command's `-d` argument decodes. */
  function Received(cmd: string): Option<Json> {
    if !StartsWith(cmd, CURL) then None
    else match Word(cmd[|CURL|..], false)
      case Some(w) => Decoded(w.value)
      case None => None
  }

  lemma MessageArrives(url: string, message: string)
    ensures Received(Command(url, MessageBody(message))) == Some(Obj([("content", Str(message))]))
  {
    BodyIsOneWord(url, MessageBody(message));
    MessageDecodes(message);
  }

  lemma EmbedArrives(url: string, title: string, description: string, color: int)
    ensures Received(Command(url, EmbedBody(title, description, color)))
         == Some(Obj([("embeds", Arr([EmbedFields(title, description, color)]))]))
  {
    BodyIsOneWord(url, EmbedBody(title, description, color));
    EmbedDecodes(title, description, color);
  }

  /** Quotation marks occur only after a backslash that is not itself escaped. */
  predicate QuotesAreEscaped(s: string) {
    if s == "" then true
    else if s[0] == '"' then false
    else if s[0] == '\\' then |s| > 1 && QuotesAreEscaped(s[2..])
    else QuotesAreEscaped(s[1..])
  }

  lemma EscapedCharIsClean(c: char, k: string)
    requires QuotesAreEscaped(k)
    ensures QuotesAreEscaped(EscapedChar(c) + k)
    ensures forall d <- EscapedChar(c) :: d as int >= 0x20
  {
    var e := EscapedChar(c);
    var s := e + k;
    assert s[|e|..] == k;
    if |e| == 6 {
      assert s[2..][1..] == s[3..] && s[3..][1..] == s[4..] && s[4..][1..] == s[5..] && s[5..][1..] == s[6..];
      assert QuotesAreEscaped(s[6..]) && QuotesAreEscaped(s[5..]);
      assert QuotesAreEscaped(s[4..]) && QuotesAreEscaped(s[3..]);
    }
  }

  /** Escaped text has no raw control byte and no unescaped quotation mark. */
  lemma {:induction false} EscapedIsClean(text: string)
    ensures QuotesAreEscaped(Escaped(text))
    ensures forall c <- Escaped(text) :: c as int >= 0x20
  {
    if text != "" {
      EscapedIsClean(text[1..]);
      EscapedCharIsClean(text[0], Escaped(text[1..]));
    }
  }
}
