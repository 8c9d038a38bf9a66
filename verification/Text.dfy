/** Options, bytes, and the string operations of Rust's standard library that the router uses. */
module Text {

  datatype Option<+T> = None | Some(value: T)

  type byte = x: int | 0 <= x < 256

  // ----- searching ------------------------------------------------------------------------

  /** Position of the first `c`, or `|s|` when there is none. */
  function IndexOf(s: string, c: char): (i: nat)
    ensures i <= |s|
    ensures forall k :: 0 <= k < i ==> s[k] != c
    ensures i < |s| ==> s[i] == c
  {
    if s == [] || s[0] == c then 0 else 1 + IndexOf(s[1..], c)
  }

  lemma IndexOfFirst(s: string, c: char, i: nat)
    requires i < |s| && s[i] == c && c !in s[..i]
    ensures IndexOf(s, c) == i
  {
    hide IndexOf;
    var a, b := s[..i], s[i + 1..];
    assert s == a + [c] + b;
    FirstIsFirst(a, c, b);
  }

  /** Position of the last `c`, or `|s|` when there is none. */
  function LastIndexOf(s: string, c: char): (i: nat)
    ensures i <= |s|
    ensures i < |s| ==> s[i] == c && forall k :: i < k < |s| ==> s[k] != c
    ensures i == |s| ==> forall k :: 0 <= k < |s| ==> s[k] != c
  {
    if s == [] then 0
    else if s[|s| - 1] == c then |s| - 1
    else
      var i := LastIndexOf(s[..|s| - 1], c);
      if i == |s| - 1 then |s| else i
  }

  /** `str::split_once` on a character: the parts before and after its first occurrence. */
  function SplitOnce(s: string, c: char): (r: Option<(string, string)>)
    ensures r.Some? <==> c in s
    ensures r.Some? ==> c !in r.value.0 && s == r.value.0 + [c] + r.value.1
  {
    var i := IndexOf(s, c);
    if i == |s| then None else Some((s[..i], s[i + 1..]))
  }

  lemma SplitOnceAt(a: string, c: char, b: string)
    requires c !in a
    ensures SplitOnce(a + [c] + b, c) == Some((a, b))
  {
    var s := a + [c] + b;
    assert s[|a|] == c;
    assert IndexOf(s, c) == |a| by {
      assert forall k :: 0 <= k < |a| ==> s[k] == a[k];
    }
    assert s[..|a|] == a && s[|a| + 1..] == b;
  }

  /** `str::rsplit_once`: the parts before and after the last `c`. */
  function RSplitOnce(s: string, c: char): (r: Option<(string, string)>)
    ensures r.Some? <==> c in s
    ensures r.Some? ==> c !in r.value.1 && s == r.value.0 + [c] + r.value.1
  {
    var i := LastIndexOf(s, c);
    if i == |s| then None else Some((s[..i], s[i + 1..]))
  }

  lemma RSplitOnceAt(a: string, c: char, b: string)
    requires c !in b
    ensures RSplitOnce(a + [c] + b, c) == Some((a, b))
  {
    var s := a + [c] + b;
    assert s[|a|] == c;
    assert LastIndexOf(s, c) == |a| by {
      assert forall k :: |a| < k < |s| ==> s[k] == b[k - |a| - 1];
    }
    assert s[..|a|] == a && s[|a| + 1..] == b;
  }

  predicate StartsWith(s: string, prefix: string) {
    |prefix| <= |s| && s[..|prefix|] == prefix
  }

  /** `str::strip_prefix`. */
  function StripPrefix(s: string, prefix: string): (r: Option<string>)
    ensures r.Some? ==> s == prefix + r.value
    ensures r.None? ==> !(prefix <= s)
  {
    if StartsWith(s, prefix) then Some(s[|prefix|..]) else None
  }

  // ----- splitting ------------------------------------------------------------------------

  /** `str::split`: all the pieces between occurrences of `c`; at least one piece. */
  function Split(s: string, c: char): (r: seq<string>)
    ensures |r| >= 1
    ensures forall p :: p in r ==> c !in p
    decreases |s|
  {
    var i := IndexOf(s, c);
    if i == |s| then [s] else [s[..i]] + Split(s[i + 1..], c)
  }

  /** The pieces of a text with a separator in the middle are the pieces of its two halves. */
  lemma {:induction false} SplitConcat(a: string, c: char, b: string)
    ensures Split(a + [c] + b, c) == Split(a, c) + Split(b, c)
    decreases |a|
  {
    hide IndexOf;
    var s := a + [c] + b;
    var i := IndexOf(a, c);
    FirstIsFirst(a, c, b);
    assert s[..i] == a[..i];
    if i < |a| {
      assert s[i + 1..] == a[i + 1..] + [c] + b;
      SplitConcat(a[i + 1..], c, b);
    } else {
      assert a[..i] == a && s[i + 1..] == b;
    }
  }

  /** The pieces with a separator between each two. */
  function Joined(pieces: seq<string>, c: char): string {
    if pieces == [] then "" else if |pieces| == 1 then pieces[0] else pieces[0] + [c] + Joined(pieces[1..], c)
  }

  /** Nothing is lost in splitting: the pieces, none of which holds `c`, make up the text. */
  lemma {:induction false} SplitJoins(s: string, c: char)
    ensures Joined(Split(s, c), c) == s
    decreases |s|
  {
    hide IndexOf;
    var i := IndexOf(s, c);
    if i < |s| {
      SplitJoins(s[i + 1..], c);
      assert Split(s, c)[1..] == Split(s[i + 1..], c);
      assert s == s[..i] + [c] + s[i + 1..];
    }
  }

  lemma {:induction false} SplitOfJoined(pieces: seq<string>, c: char)
    requires pieces != [] && forall p :: p in pieces ==> c !in p
    ensures Split(Joined(pieces, c), c) == pieces
  {
    hide IndexOf;
    var first := pieces[0];
    assert first in pieces;
    SplitOfOne(first, c);
    if |pieces| > 1 {
      assert forall p :: p in pieces[1..] ==> p in pieces;
      SplitOfJoined(pieces[1..], c);
      SplitConcat(first, c, Joined(pieces[1..], c));
    }
  }

  lemma SplitOfOne(s: string, c: char)
    requires c !in s
    ensures Split(s, c) == [s]
  {
  }

  lemma FirstIsFirst(a: string, c: char, b: string)
    ensures IndexOf(a + [c] + b, c) == IndexOf(a, c)
  {
    hide IndexOf;
    var s := a + [c] + b;
    assert forall k :: 0 <= k < |a| ==> s[k] == a[k];
    assert s[|a|] == c;
  }

  // ----- trimming -------------------------------------------------------------------------

  /** Unicode `White_Space`, which is what `str::trim` removes. */
  predicate IsWhitespace(c: char) {
    var n := c as int;
    9 <= n <= 13 || n == 0x20 || n == 0x85 || n == 0xA0 || n == 0x1680 || 0x2000 <= n <= 0x200A
    || n == 0x2028 || n == 0x2029 || n == 0x202F || n == 0x205F || n == 0x3000
  }

  /** The 25 characters that Unicode gives the property. */
  const WHITE_SPACE: set<int> := {
    0x9, 0xA, 0xB, 0xC, 0xD, 0x20, 0x85, 0xA0, 0x1680, 0x2000, 0x2001, 0x2002, 0x2003, 0x2004, 0x2005, 0x2006,
    0x2007, 0x2008, 0x2009, 0x200A, 0x2028, 0x2029, 0x202F, 0x205F, 0x3000}

  lemma WhitespaceExactly(c: char)
    ensures IsWhitespace(c) <==> c as int in WHITE_SPACE
  {
  }

  function TrimStart(s: string): (r: string)
    ensures |r| <= |s| && s[|s| - |r|..] == r
    ensures r != "" ==> !IsWhitespace(r[0])
  {
    if s != "" && IsWhitespace(s[0]) then TrimStart(s[1..]) else s
  }

  function TrimEnd(s: string): (r: string)
    ensures |r| <= |s| && s[..|r|] == r
    ensures r != "" ==> !IsWhitespace(r[|r| - 1])
  {
    if s != "" && IsWhitespace(s[|s| - 1]) then TrimEnd(s[..|s| - 1]) else s
  }

  function Trim(s: string): (r: string)
    ensures r != "" ==> !IsWhitespace(r[0]) && !IsWhitespace(r[|r| - 1])
    ensures forall c :: c in r ==> c in s
  {
    TrimEnd(TrimStart(s))
  }

  predicate AllWhitespace(s: string) {
    forall i :: 0 <= i < |s| ==> IsWhitespace(s[i])
  }

  lemma NoWhitespace()
    ensures AllWhitespace("")
  {
  }

  lemma MoreWhitespace(c: char, s: string)
    requires IsWhitespace(c) && AllWhitespace(s)
    ensures AllWhitespace([c] + s)
  {
  }

  lemma WhitespaceMore(s: string, c: char)
    requires IsWhitespace(c) && AllWhitespace(s)
    ensures AllWhitespace(s + [c])
  {
  }

  lemma TrimStartStep(s: string)
    ensures TrimStart(s) == if s != "" && IsWhitespace(s[0]) then TrimStart(s[1..]) else s
  {
  }

  lemma ConsPrefix(s: string, n: nat)
    requires 0 < n <= |s|
    ensures s[..n] == [s[0]] + s[1..][..n - 1]
  {
  }

  lemma {:induction false} TrimStartTakesOff(s: string)
    ensures AllWhitespace(s[..|s| - |TrimStart(s)|])
    decreases |s|
  {
    hide IsWhitespace, TrimStart, AllWhitespace;
    TrimStartStep(s);
    var n := |s| - |TrimStart(s)|;
    if s != "" && IsWhitespace(s[0]) {
      TrimStartTakesOff(s[1..]);
      MoreWhitespace(s[0], s[1..][..n - 1]);
      ConsPrefix(s, n);
    } else {
      NoWhitespace();
      assert s[..n] == "";
    }
  }

  lemma TrimEndStep(s: string)
    ensures TrimEnd(s) == if s != "" && IsWhitespace(s[|s| - 1]) then TrimEnd(s[..|s| - 1]) else s
  {
  }

  lemma {:induction false} TrimEndTakesOff(s: string)
    ensures AllWhitespace(s[|TrimEnd(s)|..])
  {
    hide IsWhitespace, TrimEnd, AllWhitespace;
    NoWhitespace();
    TrimEndStep(s);
    var n := |TrimEnd(s)|;
    if s != "" && IsWhitespace(s[|s| - 1]) {
      var shorter := s[..|s| - 1];
      TrimEndTakesOff(shorter);
      WhitespaceMore(shorter[n..], s[|s| - 1]);
      assert s[n..] == shorter[n..] + [s[|s| - 1]];
    } else {
      assert s[n..] == "";
    }
  }

  /** Trimming takes the whitespace off both ends, all of it and nothing else. */
  lemma TrimExactly(s: string) returns (front: string, back: string)
    ensures AllWhitespace(front) && AllWhitespace(back)
    ensures s == front + Trim(s) + back && IsTrimmed(Trim(s))
  {
    hide TrimStart, TrimEnd, IsWhitespace, AllWhitespace;
    var t := TrimStart(s);
    front, back := s[..|s| - |t|], t[|TrimEnd(t)|..];
    TrimStartTakesOff(s);
    TrimEndTakesOff(t);
    assert s == front + t && t == Trim(s) + back;
  }

  /** No whitespace at either end. */
  predicate IsTrimmed(s: string) {
    s == "" || (!IsWhitespace(s[0]) && !IsWhitespace(s[|s| - 1]))
  }

  lemma TrimStartAfterSpace(entry: string)
    requires entry != "" && !IsWhitespace(entry[0])
    ensures TrimStart(" " + entry) == entry
  {
    var spaced := " " + entry;
    assert spaced[1..] == entry && spaced[0] == ' ';
    assert TrimStart(spaced) == TrimStart(spaced[1..]);
  }

  lemma TrimEndOfTrimmed(entry: string)
    requires entry != "" && !IsWhitespace(entry[|entry| - 1])
    ensures TrimEnd(entry) == entry
  {
  }

  lemma TrimOfTrimmed(s: string)
    requires s != "" && IsTrimmed(s)
    ensures Trim(s) == s
  {
    TrimEndOfTrimmed(s);
  }

  lemma TrimAfterSpace(entry: string)
    requires entry != "" && IsTrimmed(entry)
    ensures Trim(" " + entry) == entry
  {
    hide TrimStart, TrimEnd, IsWhitespace;
    TrimStartAfterSpace(entry);
    TrimEndOfTrimmed(entry);
  }

  // ----- ASCII case -----------------------------------------------------------------------

  function AsciiLower(c: char): char {
    if 'A' <= c <= 'Z' then (c as int + 32) as char else c
  }

  /** `str::eq_ignore_ascii_case`. */
  predicate EqIgnoreAsciiCase(a: string, b: string) {
    |a| == |b| && forall i :: 0 <= i < |a| ==> AsciiLower(a[i]) == AsciiLower(b[i])
  }

  /** Two letters of one kind: the same character, or the capital and the small form of an ASCII letter. */
  predicate SameLetter(a: char, b: char) {
    a == b || ('A' <= a <= 'Z' && b as int == a as int + 32) || ('A' <= b <= 'Z' && a as int == b as int + 32)
  }

  lemma EqIgnoreAsciiCaseExactly(a: string, b: string)
    ensures EqIgnoreAsciiCase(a, b) <==> |a| == |b| && forall i :: 0 <= i < |a| ==> SameLetter(a[i], b[i])
  {
    forall x: char, y: char ensures AsciiLower(x) == AsciiLower(y) <==> SameLetter(x, y) {
      LowerExactly(x, y);
    }
  }

  lemma LowerExactly(x: char, y: char)
    ensures AsciiLower(x) == AsciiLower(y) <==> SameLetter(x, y)
  {
  }
}
