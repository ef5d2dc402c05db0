/** Normal forms of C++ type strings (UVTD/src/MemberVarsWrapperGenerator.cpp).

    The tool edits the printed type in place with five loops: four that search
    and replace, and one that drops blanks at the end. `Normalized` is what those
    loops compute on any string; the theorems say what that means for the type
    the string denotes. */
module TypeNormalizer {
  import opened Text

  const SIZED_ALLOCATOR := "TSizedDefaultAllocator"
  const SIZED_ALLOCATOR_32 := "TSizedDefaultAllocator<32>"
  const DEFAULT_ALLOCATOR := "FDefaultAllocator"
  const OBJECT_PTR := "TObjectPtr"
  const OBJECT_PTR_OPEN := "TObjectPtr<"

  // ----- the string transformation -----

  predicate HasContainerPrefix(s: string) {
    StartsWith(s, "TArray<") || StartsWith(s, "TSet<") || StartsWith(s, "TMap<")
  }

  function DropTrailingBlanks(s: string): string {
    if s != "" && s[|s| - 1] == ' ' then DropTrailingBlanks(s[..|s| - 1]) else s
  }

  /** Where the bracket opened `depth` levels ago closes, reading `s` from its start. */
  function Closing(s: string, depth: nat): (r: Option<nat>)
    requires depth > 0
    ensures r.Some? ==> r.value < |s|
  {
    if s == "" then None
    else
      var d := if s[0] == '<' then depth + 1 else if s[0] == '>' then depth - 1 else depth;
      if d == 0 then Some(0)
      else match Closing(s[1..], d) { case Some(n) => Some(n + 1) case None => None }
  }

  /** `s` with the `TObjectPtr<X>` at its start turned into `X*`, if there is one that closes. */
  function UnwrapFirst(s: string): (r: Option<string>)
    ensures r.Some? ==> |r.value| < |s|
  {
    if !StartsWith(s, OBJECT_PTR_OPEN) then None
    else match Closing(s[11..], 1)
      case None => None
      case Some(n) => Some(s[11..][..n] + "*" + s[11..][n + 1..])
  }

  /** Every `TObjectPtr<X>` becomes `X*`, outermost first; an unclosed one is copied. */
  function Unwrapped(s: string): string
    decreases |s|
  {
    if s == "" then ""
    else match UnwrapFirst(s)
      case Some(s') => Unwrapped(s')
      case None => [s[0]] + Unwrapped(s[1..])
  }

  function Normalized(s: string): string {
    var s1 := Rewritten(s, SIZED_ALLOCATOR_32, DEFAULT_ALLOCATOR);
    var s2 := DropTrailingBlanks(Rewritten(s1, " >", ">"));
    var s3 := if HasContainerPrefix(s2) then Unwrapped(s2) else s2;
    Rewritten(s3, " *", "*")
  }

  // ----- the in-place loops -----

  /** `normalize_type_for_comparison` */
  method NormalizeTypeForComparison(typeName: string) returns (normalized: string)
    ensures normalized == Normalized(typeName)
  {
    normalized := ReplaceEach(typeName, SIZED_ALLOCATOR_32, DEFAULT_ALLOCATOR);
    normalized := ReplaceEach(normalized, " >", ">");
    ghost var untrimmed := normalized;
    while normalized != "" && normalized[|normalized| - 1] == ' '
      invariant DropTrailingBlanks(normalized) == DropTrailingBlanks(untrimmed)
      decreases |normalized|
    {
      normalized := normalized[..|normalized| - 1];
    }
    if HasContainerPrefix(normalized) {
      normalized := UnwrapObjectPointers(normalized);
    }
    normalized := ReplaceEach(normalized, " *", "*");
  }

  ghost function Pending(s: string, pos: nat): string
    requires pos <= |s|
  {
    s[..pos] + Unwrapped(s[pos..])
  }

  method UnwrapObjectPointers(text: string) returns (r: string)
    ensures r == Unwrapped(text)
  {
    r := text;
    var pos := 0;
    while true
      invariant pos <= |r|
      invariant Pending(r, pos) == Unwrapped(text)
      decreases |r|, |r| - pos
    {
      var hit := FindFrom(r, OBJECT_PTR_OPEN, pos);
      if hit.None? {
        UnwrappedSkipTo(r, pos, |r|);
        assert r[..|r|] == r;
        break;
      }
      UnwrappedSkipTo(r, pos, hit.value);
      pos := hit.value;
      var start := pos + 11;
      var end, depth := FindClosing(r, start);
      assert r[pos..][11..] == r[start..];
      if depth == 0 {
        UnwrapAt(r, pos, end);
        r := r[..pos] + (r[start..end] + "*") + r[end + 1..];
      } else {
        UnwrappedSkipOne(r, pos);
        pos := pos + 1;
      }
    }
  }

  method FindClosing(s: string, start: nat) returns (end: nat, depth: nat)
    requires start <= |s|
    ensures depth == 0 <==> Closing(s[start..], 1).Some?
    ensures depth == 0 ==> start <= end < |s| && end == start + Closing(s[start..], 1).value
  {
    depth, end := 1, start;
    while end < |s| && depth > 0
      invariant start <= end <= |s|
      invariant depth == 0 ==> end < |s| && Closing(s[start..], 1) == Some(end - start)
      invariant depth > 0 ==>
        Closing(s[start..], 1)
          == match Closing(s[end..], depth) { case Some(n) => Some(end - start + n) case None => None }
      decreases |s| - end, depth
    {
      assert s[end..][0] == s[end] && s[end..][1..] == s[end + 1..];
      if s[end] == '<' {
        depth := depth + 1;
      } else if s[end] == '>' {
        depth := depth - 1;
      }
      if depth > 0 {
        end := end + 1;
      }
    }
  }

  lemma {:induction false} UnwrappedSkips(w: string, k: string)
    requires forall i :: 0 <= i < |w| ==> !StartsWith(w[i..] + k, OBJECT_PTR_OPEN)
    ensures Unwrapped(w + k) == w + Unwrapped(k)
  {
    if w == "" {
      assert w + k == k;
    } else {
      assert w[0..] == w;
      assert (w + k)[1..] == w[1..] + k;
      forall i | 0 <= i < |w[1..]| ensures !StartsWith(w[1..][i..] + k, OBJECT_PTR_OPEN) {
        assert w[1..][i..] == w[i + 1..];
      }
      UnwrappedSkips(w[1..], k);
    }
  }

  lemma UnwrappedSkipTo(s: string, from: nat, to: nat)
    requires from <= to <= |s|
    requires forall i :: from <= i < to ==> !StartsWith(s[i..], OBJECT_PTR_OPEN)
    ensures Pending(s, from) == Pending(s, to)
  {
    var w := s[from..to];
    assert s[from..] == w + s[to..];
    forall i | 0 <= i < |w| ensures !StartsWith(w[i..] + s[to..], OBJECT_PTR_OPEN) {
      assert w[i..] + s[to..] == s[from + i..];
    }
    UnwrappedSkips(w, s[to..]);
    assert s[..from] + w == s[..to];
  }

  lemma UnwrappedSkipOne(s: string, pos: nat)
    requires pos < |s|
    requires UnwrapFirst(s[pos..]).None?
    ensures Pending(s, pos + 1) == Pending(s, pos)
  {
    assert s[pos..][0] == s[pos] && s[pos..][1..] == s[pos + 1..];
    assert s[..pos] + [s[pos]] == s[..pos + 1];
  }

  lemma UnwrapAt(s: string, pos: nat, end: nat)
    requires pos + 11 <= end < |s| && StartsWith(s[pos..], OBJECT_PTR_OPEN)
    requires Closing(s[pos + 11..], 1) == Some(end - (pos + 11))
    ensures Pending(s[..pos] + (s[pos + 11..end] + "*") + s[end + 1..], pos) == Pending(s, pos)
  {
    var tail := s[pos + 11..];
    var s' := s[..pos] + (s[pos + 11..end] + "*") + s[end + 1..];
    assert s[pos..][11..] == tail;
    assert s'[pos..] == tail[..end - (pos + 11)] + "*" + tail[end - (pos + 11) + 1..];
    assert s'[..pos] == s[..pos];
  }
}
