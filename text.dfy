/** The string operations the backend relies on: JavaScript's `trim`,
    `toLowerCase`, `split`, the truthiness test on request fields, and the
    case-insensitive substring match used by the project search. */
module Text {
  import opened Wrappers

  /** The characters `String.prototype.trim` removes: the WhiteSpace and
      LineTerminator code points of ECMAScript. */
  predicate IsSpace(c: char) {
    || c == ' ' || c == '\t' || c == '\n' || c == '\r'
    || c == '\U{000B}' || c == '\U{000C}' || c == '\U{00A0}' || c == '\U{1680}'
    || ('\U{2000}' <= c <= '\U{200A}')
    || c == '\U{2028}' || c == '\U{2029}' || c == '\U{202F}' || c == '\U{205F}'
    || c == '\U{3000}' || c == '\U{FEFF}'
  }

  /** A request field is truthy when it is present and not the empty string
      (`!field` is false). */
  predicate Truthy(field: Option<string>) {
    field.Some? && field.value != ""
  }

  /** The length of the longest all-whitespace prefix. */
  function LeadingSpaces(s: string): (k: nat)
    ensures k <= |s|
    ensures forall i :: 0 <= i < k ==> IsSpace(s[i])
    ensures k < |s| ==> !IsSpace(s[k])
  {
    if s == [] || !IsSpace(s[0]) then 0 else 1 + LeadingSpaces(s[1..])
  }

  /** The length of the longest all-whitespace suffix. */
  function TrailingSpaces(s: string): (k: nat)
    ensures k <= |s|
    ensures forall i :: |s| - k <= i < |s| ==> IsSpace(s[i])
    ensures k < |s| ==> !IsSpace(s[|s| - 1 - k])
  {
    if s == [] || !IsSpace(s[|s| - 1]) then 0 else 1 + TrailingSpaces(s[..|s| - 1])
  }

  /** JavaScript's `trim`: the infix of `s` left after removing whitespace
      from both ends. */
  function Trim(s: string): (r: string)
    ensures Trimmed(r)
    ensures (r == []) <==> (forall i :: 0 <= i < |s| ==> IsSpace(s[i]))
    ensures LeadingSpaces(s) + |r| <= |s|
    ensures r == s[LeadingSpaces(s)..LeadingSpaces(s) + |r|]
    ensures forall i :: 0 <= i < |s| && !(LeadingSpaces(s) <= i < LeadingSpaces(s) + |r|) ==> IsSpace(s[i])
  {
    var a := LeadingSpaces(s);
    var rest := s[a..];
    var b := TrailingSpaces(rest);
    assert rest != [] ==> !IsSpace(rest[0]);
    assert rest != [] ==> b < |rest|;
    rest[..|rest| - b]
  }

  /** `s` has no whitespace at either end. */
  predicate Trimmed(s: string) {
    s == [] || (!IsSpace(s[0]) && !IsSpace(s[|s| - 1]))
  }

  /** Trimming a string that has no whitespace at either end changes nothing. */
  lemma TrimUnpadded(s: string)
    requires Trimmed(s)
    ensures Trim(s) == s
  {
    if s != [] {
      assert LeadingSpaces(s) == 0;
      assert TrailingSpaces(s) == 0;
    }
  }

  /** `trim` is idempotent, so a value the schema stores trimmed is a fixed
      point of the controllers' own `trim` calls. */
  lemma TrimIdempotent(s: string)
    ensures Trim(Trim(s)) == Trim(s)
  {
    TrimUnpadded(Trim(s));
  }

  /** ASCII case folding (`toLowerCase` restricted to A-Z). */
  function LowerChar(c: char): (d: char)
    ensures ('A' <= c <= 'Z') ==> 'a' <= d <= 'z'
    ensures !('A' <= c <= 'Z') ==> d == c
  {
    if 'A' <= c <= 'Z' then (c as int + 32) as char else c
  }

  function ToLower(s: string): (r: string)
    ensures |r| == |s|
    ensures forall i :: 0 <= i < |s| ==> r[i] == LowerChar(s[i])
  {
    seq(|s|, i requires 0 <= i < |s| => LowerChar(s[i]))
  }

  /** Lower-casing is idempotent and leaves no upper-case ASCII letter. */
  lemma ToLowerIdempotent(s: string)
    ensures ToLower(ToLower(s)) == ToLower(s)
    ensures forall i :: 0 <= i < |s| ==> !('A' <= ToLower(s)[i] <= 'Z')
  {
  }

  /** Two strings with whitespace in the same places have the same amount of
      leading whitespace. */
  lemma {:induction false} SameLeading(s: string, t: string)
    requires |s| == |t|
    requires forall i :: 0 <= i < |s| ==> (IsSpace(s[i]) <==> IsSpace(t[i]))
    ensures LeadingSpaces(s) == LeadingSpaces(t)
  {
    if s != [] && IsSpace(s[0]) {
      assert IsSpace(t[0]);
      assert forall i :: 0 <= i < |s| - 1 ==> s[1..][i] == s[i + 1] && t[1..][i] == t[i + 1];
      SameLeading(s[1..], t[1..]);
    }
  }

  /** The same for trailing whitespace. */
  lemma {:induction false} SameTrailing(s: string, t: string)
    requires |s| == |t|
    requires forall i :: 0 <= i < |s| ==> (IsSpace(s[i]) <==> IsSpace(t[i]))
    ensures TrailingSpaces(s) == TrailingSpaces(t)
  {
    if s != [] && IsSpace(s[|s| - 1]) {
      var n := |s| - 1;
      assert IsSpace(t[n]);
      assert forall i :: 0 <= i < n ==> s[..n][i] == s[i] && t[..n][i] == t[i];
      SameTrailing(s[..n], t[..n]);
    }
  }

  /** The schema applies both `lowercase` and `trim` to an email; the order
      in which they run does not matter. */
  lemma {:induction false} TrimLowerCommute(s: string)
    ensures Trim(ToLower(s)) == ToLower(Trim(s))
  {
    var t := ToLower(s);
    LowerSpacing(s);
    SameLeading(s, t);
    var a := LeadingSpaces(s);
    SuffixSpacing(s, t, a);
    SameTrailing(s[a..], t[a..]);
    var e := |s[a..]| - TrailingSpaces(s[a..]);
    TrimIsSlice(s);
    TrimIsSlice(t);
    LowerSlice(s, a, e);
  }

  /** Lower-casing keeps whitespace where it was. */
  lemma LowerSpacing(s: string)
    ensures |ToLower(s)| == |s|
    ensures forall i :: 0 <= i < |s| ==> (IsSpace(s[i]) <==> IsSpace(ToLower(s)[i]))
  {
    forall i | 0 <= i < |s| ensures IsSpace(s[i]) <==> IsSpace(ToLower(s)[i]) {
      assert IsSpace(LowerChar(s[i])) <==> IsSpace(s[i]);
    }
  }

  /** Whitespace in the same places stays so in the suffixes from `a`. */
  lemma SuffixSpacing(s: string, t: string, a: nat)
    requires |s| == |t| && a <= |s|
    requires forall i :: 0 <= i < |s| ==> (IsSpace(s[i]) <==> IsSpace(t[i]))
    ensures |s[a..]| == |t[a..]|
    ensures forall i :: 0 <= i < |s[a..]| ==> (IsSpace(s[a..][i]) <==> IsSpace(t[a..][i]))
  {
    forall i | 0 <= i < |s[a..]| ensures IsSpace(s[a..][i]) <==> IsSpace(t[a..][i]) {
      assert s[a..][i] == s[a + i] && t[a..][i] == t[a + i];
    }
  }

  /** Lower-casing commutes with taking a slice. */
  lemma LowerSlice(s: string, a: nat, e: nat)
    requires a <= |s| && e <= |s| - a
    ensures ToLower(s)[a..][..e] == ToLower(s[a..][..e])
  {
    var t := ToLower(s);
    forall i | 0 <= i < e ensures t[a..][..e][i] == LowerChar(s[a..][..e][i]) {
      assert t[a..][..e][i] == t[a + i] && s[a..][..e][i] == s[a + i];
    }
  }

  /** Trim keeps the part between the leading whitespace and the trailing
      whitespace of what follows it. */
  lemma TrimIsSlice(s: string)
    ensures var rest := s[LeadingSpaces(s)..];
      Trim(s) == rest[..|rest| - TrailingSpaces(rest)]
  {
  }

  /** The position of the first occurrence of `c` in `s`. */
  function IndexOf(s: string, c: char): (i: nat)
    requires c in s
    ensures i < |s| && s[i] == c && c !in s[..i]
  {
    if s[0] == c then 0
    else
      assert c in s[1..] by { var j :| 0 <= j < |s| && s[j] == c; assert s[1..][j - 1] == c; }
      var j := IndexOf(s[1..], c);
      assert s[..j + 1] == [s[0]] + s[1..][..j];
      1 + j
  }

  /** The first occurrence is the only position `k` with `s[k] == c` and no
      `c` before it. */
  lemma IndexOfIsFirst(s: string, c: char, k: nat)
    requires k < |s| && s[k] == c && c !in s[..k]
    ensures IndexOf(s, c) == k
  {
    var i := IndexOf(s, c);
    assert forall j :: 0 <= j < k ==> s[..k][j] == s[j];
    assert forall j :: 0 <= j < i ==> s[..i][j] == s[j];
  }

  /** JavaScript's `s.split(sep)` for a one-character separator. */
  function Split(s: string, sep: char): (parts: seq<string>)
    ensures |parts| >= 1
    ensures forall k :: 0 <= k < |parts| ==> sep !in parts[k]
    decreases |s|
  {
    if sep !in s then [s]
    else
      var i := IndexOf(s, sep);
      [s[..i]] + Split(s[i + 1..], sep)
  }

  /** JavaScript's `parts.join(sep)`, the inverse of Split. */
  function Join(parts: seq<string>, sep: char): (s: string)
    requires |parts| >= 1
  {
    if |parts| == 1 then parts[0] else parts[0] + [sep] + Join(parts[1..], sep)
  }

  /** Splitting and joining again gives back the original string. */
  lemma {:induction false} JoinSplit(s: string, sep: char)
    ensures Join(Split(s, sep), sep) == s
    decreases |s|
  {
    if sep in s {
      var i := IndexOf(s, sep);
      JoinSplit(s[i + 1..], sep);
      assert s == s[..i] + [sep] + s[i + 1..];
    }
  }

  /** Splitting at the first separator: the part before it, then the split
      of the rest. */
  lemma SplitAt(s: string, sep: char, k: nat)
    requires k < |s| && s[k] == sep && sep !in s[..k]
    ensures Split(s, sep) == [s[..k]] + Split(s[k + 1..], sep)
  {
    IndexOfIsFirst(s, sep, k);
  }

  /** Joining separator-free parts and splitting again gives back the parts. */
  lemma {:induction false} SplitJoin(parts: seq<string>, sep: char)
    requires |parts| >= 1
    requires forall k :: 0 <= k < |parts| ==> sep !in parts[k]
    ensures Split(Join(parts, sep), sep) == parts
  {
    if |parts| > 1 {
      var head, tail := parts[0], Join(parts[1..], sep);
      var s := head + [sep] + tail;
      assert Join(parts, sep) == s;
      assert s[..|head|] == head && s[|head| + 1..] == tail;
      SplitAt(s, sep, |head|);
      SplitJoin(parts[1..], sep);
      assert parts == [head] + parts[1..];
    }
  }

  /** `needle` occurs somewhere in `hay`. */
  predicate IsInfix(needle: string, hay: string) {
    exists i :: 0 <= i <= |hay| && needle <= hay[i..]
  }

  /** Case-insensitive substring match, the model of the project search. */
  predicate ContainsIgnoringCase(hay: string, needle: string) {
    IsInfix(ToLower(needle), ToLower(hay))
  }
}
