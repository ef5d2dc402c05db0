/** Reading text line by line, as `std::getline` does. */
module Streams {
  import opened Text

  function IndexOf(s: string, c: char): (r: Option<nat>)
    ensures r.Some? ==> r.value < |s| && s[r.value] == c && c !in s[..r.value]
    ensures r.None? ==> c !in s
  {
    if s == "" then None
    else if s[0] == c then Some(0)
    else match IndexOf(s[1..], c) { case Some(i) => Some(i + 1) case None => None }
  }

  /** What repeated `std::getline` yields. */
  function Lines(text: string): seq<string>
    decreases |text|
  {
    if text == "" then []
    else match IndexOf(text, '\n')
      case Some(i) => [text[..i]] + Lines(text[i + 1..])
      case None => [text]
  }

  method GetLine(text: string) returns (line: string, rest: string)
    requires text != ""
    ensures Lines(text) == [line] + Lines(rest) && |rest| < |text|
  {
    var newline := IndexOf(text, '\n');
    if newline.Some? {
      line, rest := text[..newline.value], text[newline.value + 1..];
    } else {
      line, rest := text, "";
    }
  }

  lemma {:induction false} IndexOfFirst(s: string, c: char, k: string)
    requires c !in s
    ensures IndexOf(s + [c] + k, c) == Some(|s|)
  {
    if s == "" {
      assert s + [c] + k == [c] + k;
    } else {
      assert (s + [c] + k)[1..] == s[1..] + [c] + k;
      IndexOfFirst(s[1..], c, k);
    }
  }

  lemma FirstLine(line: string, rest: string)
    requires '\n' !in line
    ensures Lines(line + ("\n" + rest)) == [line] + Lines(rest)
  {
    assert line + ("\n" + rest) == line + ['\n'] + rest;
    IndexOfFirst(line, '\n', rest);
  }

  lemma LastLine(line: string)
    requires line != "" && '\n' !in line
    ensures Lines(line) == [line]
  {}

  /** A missing newline at the end of a file does not change its lines. */
  lemma {:induction false} FinalNewline(text: string)
    requires text != "" && text[|text| - 1] != '\n'
    ensures Lines(text + "\n") == Lines(text)
    decreases |text|
  {
    var newline := IndexOf(text, '\n');
    if newline.Some? {
      var line, rest := text[..newline.value], text[newline.value + 1..];
      assert text == line + ("\n" + rest) && text + "\n" == line + ("\n" + (rest + "\n"));
      assert rest[|rest| - 1] == text[|text| - 1];
      FirstLine(line, rest);
      FirstLine(line, rest + "\n");
      FinalNewline(rest);
    } else {
      LastLine(text);
      FirstLine(text, "");
      assert text + ("\n" + "") == text + "\n";
    }
  }
}
