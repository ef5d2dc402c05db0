/** Strings as the tools use them: prefixes, substring search and the C++
    idiom "search from a cursor, replace in place, keep the cursor". */
module Text {

  datatype Option<+T> = None | Some(value: T)

  predicate StartsWith(s: string, prefix: string) {
    |prefix| <= |s| && s[..|prefix|] == prefix
  }

  predicate EndsWith(s: string, suffix: string) {
    |suffix| <= |s| && s[|s| - |suffix|..] == suffix
  }

  /** White space in the C locale. */
  predicate IsSpace(c: char) { c == ' ' || 9 <= c as int <= 13 }

  function SkipSpaces(s: string): string {
    if s != "" && IsSpace(s[0]) then SkipSpaces(s[1..]) else s
  }

  lemma {:induction false} SpacesAreSkipped(pre: string, s: string)
    requires (forall c <- pre :: IsSpace(c)) && (s != "" ==> !IsSpace(s[0]))
    ensures SkipSpaces(pre + s) == s
  {
    if pre == "" {
      assert pre + s == s;
    } else {
      assert pre[0] in pre && (pre + s)[1..] == pre[1..] + s;
      assert forall c <- pre[1..] :: c in pre;
      SpacesAreSkipped(pre[1..], s);
    }
  }

  /** `std::string::find(pat, from)`: the first occurrence at or after `from`. */
  function FindFrom(s: string, pat: string, from: nat): (r: Option<nat>)
    requires from <= |s|
    ensures r.Some? ==> from <= r.value <= |s| && StartsWith(s[r.value..], pat)
    ensures r.Some? ==> forall i :: from <= i < r.value ==> !StartsWith(s[i..], pat)
    ensures r.None? ==> forall i :: from <= i <= |s| ==> !StartsWith(s[i..], pat)
    decreases |s| - from
  {
    if StartsWith(s[from..], pat) then Some(from)
    else if from == |s| then None
    else FindFrom(s, pat, from + 1)
  }

  /** Left-to-right replacement of every occurrence of `pat`. */
  function Rewritten(s: string, pat: string, rep: string): string
    requires pat != ""
  {
    if s == "" then ""
    else if StartsWith(s, pat) then rep + Rewritten(s[|pat|..], pat, rep)
    else [s[0]] + Rewritten(s[1..], pat, rep)
  }

  /** A stretch in which no occurrence starts is copied unchanged. */
  lemma {:induction false} RewrittenSkips(w: string, k: string, pat: string, rep: string)
    requires pat != ""
    requires forall i :: 0 <= i < |w| ==> !StartsWith(w[i..] + k, pat)
    ensures Rewritten(w + k, pat, rep) == w + Rewritten(k, pat, rep)
  {
    if w == "" {
      assert w + k == k;
    } else {
      assert w[0..] == w;
      assert (w + k)[1..] == w[1..] + k;
      forall i | 0 <= i < |w[1..]| ensures !StartsWith(w[1..][i..] + k, pat) {
        assert w[1..][i..] == w[i + 1..];
      }
      RewrittenSkips(w[1..], k, pat, rep);
    }
  }

  /** The in-place loop shared by the allocator, " >" and " *" passes: replace
      at the hit and leave the cursor where it is. That the cursor may re-read
      the replacement is harmless because the pattern cannot start inside it. */
  method ReplaceEach(text: string, pat: string, rep: string) returns (r: string)
    requires |rep| < |pat|
    requires pat[0] !in rep
    ensures r == Rewritten(text, pat, rep)
  {
    r := text;
    var pos := 0;
    while true
      invariant pos <= |r|
      invariant Partial(r, pos, pat, rep) == Rewritten(text, pat, rep)
      decreases |r|
    {
      var hit := FindFrom(r, pat, pos);
      if hit.None? {
        SkipTo(r, pos, |r|, pat, rep);
        assert r[..|r|] == r;
        break;
      }
      SkipTo(r, pos, hit.value, pat, rep);
      pos := hit.value;
      ReplaceAt(r, pos, pat, rep);
      r := r[..pos] + rep + r[pos + |pat|..];
    }
  }

  /** What the loop will produce from the cursor `pos` on. */
  ghost function Partial(s: string, pos: nat, pat: string, rep: string): string
    requires pat != "" && pos <= |s|
  {
    s[..pos] + Rewritten(s[pos..], pat, rep)
  }

  lemma ReplaceAt(s: string, at: nat, pat: string, rep: string)
    requires |rep| < |pat| && pat[0] !in rep
    requires at <= |s| && StartsWith(s[at..], pat)
    ensures Partial(s[..at] + rep + s[at + |pat|..], at, pat, rep) == Partial(s, at, pat, rep)
  {
    var rest := s[at + |pat|..];
    var s' := s[..at] + rep + rest;
    assert s'[at..] == rep + rest && s'[..at] == s[..at];
    assert s[at..][|pat|..] == rest;
    RewrittenSkips(rep, rest, pat, rep);
  }

  lemma SkipTo(s: string, from: nat, to: nat, pat: string, rep: string)
    requires pat != "" && from <= to <= |s|
    requires forall i :: from <= i < to ==> !StartsWith(s[i..], pat)
    ensures Partial(s, from, pat, rep) == Partial(s, to, pat, rep)
  {
    var w := s[from..to];
    assert s[from..] == w + s[to..];
    forall i | 0 <= i < |w| ensures !StartsWith(w[i..] + s[to..], pat) {
      assert w[i..] + s[to..] == s[from + i..];
    }
    RewrittenSkips(w, s[to..], pat, rep);
    assert s[..from] + w == s[..to];
  }
}
