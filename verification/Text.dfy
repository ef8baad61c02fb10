/** Text as the commands cut it: words between separators, white space, and
    lists written with a separator. */
module Text {

  // ----- white space ---------------------------------------------------------

  /** The characters Go's unicode.IsSpace accepts. */
  const SPACES := {'\t', '\n', '\U{000B}', '\U{000C}', '\r', ' ', '\U{0085}', '\U{00A0}', '\U{1680}',
    '\U{2000}', '\U{2001}', '\U{2002}', '\U{2003}', '\U{2004}', '\U{2005}', '\U{2006}', '\U{2007}',
    '\U{2008}', '\U{2009}', '\U{200A}', '\U{2028}', '\U{2029}', '\U{202F}', '\U{205F}', '\U{3000}'}

  predicate IsSpace(c: char) {
    c in SPACES
  }

  predicate SpaceFree(s: string) {
    forall i :: 0 <= i < |s| ==> !IsSpace(s[i])
  }

  /** strings.TrimSpace. */
  function TrimSpace(s: string): string {
    if s == "" then ""
    else if IsSpace(s[0]) then TrimSpace(s[1..])
    else if IsSpace(s[|s| - 1]) then TrimSpace(s[..|s| - 1])
    else s
  }

  /** The codes of those characters. */
  lemma SpacesExactly(c: char)
    ensures IsSpace(c) <==>
            || 9 <= c as int <= 13 || c as int in {0x20, 0x85, 0xA0, 0x1680, 0x2028, 0x2029, 0x202F, 0x205F, 0x3000}
            || 0x2000 <= c as int <= 0x200A
  {
  }

  /** What is trimmed is white space up to the first character that is none, and from the
      last on. */
  lemma {:induction false} TrimSpaceExactly(s: string) returns (i: int, j: int)
    ensures 0 <= i <= j <= |s| && TrimSpace(s) == s[i..j]
    ensures (forall k :: 0 <= k < i ==> IsSpace(s[k])) && (forall k :: j <= k < |s| ==> IsSpace(s[k]))
    ensures i < j ==> !IsSpace(s[i]) && !IsSpace(s[j - 1])
    decreases |s|
  {
    if s != "" && IsSpace(s[0]) {
      i, j := TrimSpaceExactly(s[1..]);
      assert s[1..][i..j] == s[i + 1..j + 1];
      assert forall k :: 1 <= k < |s| ==> s[k] == s[1..][k - 1];
      i, j := i + 1, j + 1;
    } else if s != "" && IsSpace(s[|s| - 1]) {
      i, j := TrimSpaceExactly(s[..|s| - 1]);
      assert s[..|s| - 1][i..j] == s[i..j];
      assert forall k :: 0 <= k < |s| - 1 ==> s[k] == s[..|s| - 1][k];
    } else {
      i, j := 0, |s|;
    }
  }

  // ----- words ---------------------------------------------------------------

  /** Where text is cut into words: at the given characters, or at any but them. */
  datatype Cut = Cut(chars: set<char>, inside: bool) {
    predicate Ends(c: char) {
      (c in chars) != inside
    }
  }

  /** No character of s from i up to j is a separator. */
  ghost predicate Unbroken(s: string, cut: Cut, i: int, j: int)
    requires 0 <= i && j <= |s|
  {
    forall k :: i <= k < j ==> !cut.Ends(s[k])
  }

  /** How far the word that s opens with runs. */
  function WordLength(s: string, cut: Cut): (n: nat)
    ensures n <= |s|
    ensures Unbroken(s, cut, 0, n)
    ensures n < |s| ==> cut.Ends(s[n])
  {
    if s == "" || cut.Ends(s[0]) then 0 else 1 + WordLength(s[1..], cut)
  }

  /** strings.FieldsFunc: the maximal runs of s that hold no separator, in order. */
  function Words(s: string, cut: Cut): seq<string>
    decreases |s|
  {
    if s == "" then []
    else if cut.Ends(s[0]) then Words(s[1..], cut)
    else
      var n := WordLength(s, cut);
      [s[..n]] + Words(s[n..], cut)
  }

  const WHITE_SPACE := Cut(SPACES, false)

  /** strings.Fields. */
  function Fields(s: string): seq<string> {
    Words(s, WHITE_SPACE)
  }

  /** s[i..j] is a run of s that no character on either side continues. */
  ghost predicate MaximalRun(s: string, cut: Cut, i: int, j: int) {
    && 0 <= i < j <= |s|
    && Unbroken(s, cut, i, j)
    && (i == 0 || cut.Ends(s[i - 1]))
    && (j == |s| || cut.Ends(s[j]))
  }

  /** A run of what follows n characters, the last of them or the first after
      them a separator, is the run that far along the whole. */
  lemma RunShifts(s: string, cut: Cut, n: nat, i: int, j: int)
    requires 0 < n < |s| && (cut.Ends(s[n - 1]) || cut.Ends(s[n]))
    ensures 0 <= i <= j <= |s| - n ==> s[n..][i..j] == s[i + n..j + n]
    ensures MaximalRun(s[n..], cut, i, j) <==> i >= 0 && MaximalRun(s, cut, i + n, j + n)
  {
    var rest := s[n..];
    if 0 <= i < j <= |rest| {
      assert Unbroken(rest, cut, i, j) ==> Unbroken(s, cut, i + n, j + n) by {
        assert forall k :: i + n <= k < j + n ==> s[k] == rest[k - n];
      }
      assert Unbroken(s, cut, i + n, j + n) ==> Unbroken(rest, cut, i, j) by {
        assert forall k :: i <= k < j ==> rest[k] == s[k + n];
      }
    }
  }

  /** Every word is a non-empty run of s, maximal on both sides. */
  lemma {:induction false} WordsAreRuns(s: string, cut: Cut, w: string) returns (i: int, j: int)
    requires w in Words(s, cut)
    ensures MaximalRun(s, cut, i, j) && s[i..j] == w
    decreases |s|
  {
    var n := if cut.Ends(s[0]) then 1 else WordLength(s, cut);
    if !cut.Ends(s[0]) && w == s[..n] {
      i, j := 0, n;
    } else {
      i, j := WordsAreRuns(s[n..], cut, w);
      RunShifts(s, cut, n, i, j);
      i, j := i + n, j + n;
    }
  }

  /** A run of text that opens with a word is that word, or lies past the separator after it. */
  lemma FirstRun(s: string, cut: Cut, i: int, j: int)
    requires MaximalRun(s, cut, i, j) && !cut.Ends(s[0])
    ensures i == 0 ==> j == WordLength(s, cut)
    ensures i != 0 ==> WordLength(s, cut) < i
  {
    var n := WordLength(s, cut);
    assert i > 0 ==> cut.Ends(s[i - 1]);
    assert n < |s| ==> cut.Ends(s[n]);
  }

  /** Every maximal run of s is one of its words. */
  lemma {:induction false} RunsAreWords(s: string, cut: Cut, i: int, j: int, w: string)
    requires MaximalRun(s, cut, i, j) && w == s[i..j]
    ensures w in Words(s, cut)
    decreases |s|
  {
    var n := if cut.Ends(s[0]) then 1 else WordLength(s, cut);
    RunPastFirst(s, cut, i, j, n);
    if i < n {
      FirstIsWord(s, cut);
    } else {
      RunShifts(s, cut, n, i - n, j - n);
      RunsAreWords(s[n..], cut, i - n, j - n, w);
      WordsOfRest(s, cut, n, w);
    }
  }

  /** A run is the first word, or lies in the rest. */
  lemma RunPastFirst(s: string, cut: Cut, i: int, j: int, n: nat)
    requires MaximalRun(s, cut, i, j) && n == if cut.Ends(s[0]) then 1 else WordLength(s, cut)
    ensures i < n ==> !cut.Ends(s[0]) && s[i..j] == s[..n]
    ensures i >= n ==> 0 < n < |s| && (cut.Ends(s[n - 1]) || cut.Ends(s[n]))
  {
    if !cut.Ends(s[0]) {
      FirstRun(s, cut, i, j);
    }
  }

  lemma FirstIsWord(s: string, cut: Cut)
    requires s != "" && !cut.Ends(s[0])
    ensures s[..WordLength(s, cut)] in Words(s, cut)
  {
    var n := WordLength(s, cut);
    assert Words(s, cut) == [s[..n]] + Words(s[n..], cut);
  }

  /** The words past the first, or past a leading separator, are words of the whole. */
  lemma WordsOfRest(s: string, cut: Cut, n: nat, w: string)
    requires s != "" && n == if cut.Ends(s[0]) then 1 else WordLength(s, cut)
    requires w in Words(s[n..], cut)
    ensures w in Words(s, cut)
  {
    if !cut.Ends(s[0]) {
      assert Words(s, cut) == [s[..n]] + Words(s[n..], cut);
    }
  }

  /** A field is non-empty and holds no white space. */
  lemma FieldIsSpaceFree(s: string, w: string)
    requires w in Fields(s)
    ensures w != "" && SpaceFree(w)
  {
    var i, j := WordsAreRuns(s, WHITE_SPACE, w);
    assert forall k :: 0 <= k < |w| ==> w[k] == s[i + k];
  }

  /** Text that opens with a word and then stops or breaks gives that word first. */
  lemma {:induction false} WordsOfWord(w: string, rest: string, cut: Cut)
    requires w != "" && Unbroken(w, cut, 0, |w|)
    requires rest == "" || cut.Ends(rest[0])
    ensures Words(w + rest, cut) == [w] + Words(rest, cut)
  {
    var s := w + rest;
    assert rest != "" ==> s[|w|] == rest[0];
    assert forall k :: 0 <= k < |w| ==> s[k] == w[k];
    assert WordLength(s, cut) == |w|;
    assert s[..|w|] == w && s[|w|..] == rest;
  }

  /** Leading separators add no word. */
  lemma {:induction false} WordsOfGap(gap: string, rest: string, cut: Cut)
    requires forall i :: 0 <= i < |gap| ==> cut.Ends(gap[i])
    ensures Words(gap + rest, cut) == Words(rest, cut)
  {
    if gap == "" {
      assert gap + rest == rest;
    } else {
      assert (gap + rest)[1..] == gap[1..] + rest;
      WordsOfGap(gap[1..], rest, cut);
    }
  }

  /** Text cut at a separator is cut into words on each side apart. */
  lemma {:induction false} WordsAppend(a: string, b: string, cut: Cut)
    requires a == "" || cut.Ends(a[|a| - 1])
    ensures Words(a + b, cut) == Words(a, cut) + Words(b, cut)
    decreases |a|
  {
    if a == "" {
      assert a + b == b;
    } else if cut.Ends(a[0]) {
      WordsAppend(a[1..], b, cut);
      SplitApart(a, b, 1);
      WordsOfGap(a[..1], a[1..] + b, cut);
    } else {
      WordsAppend(a[WordLength(a, cut)..], b, cut);
      WordsOfFirst(a, b, cut);
    }
  }

  /** The first word of text is the first of the words of more text, past a separator. */
  lemma WordsOfFirst(a: string, b: string, cut: Cut)
    requires a != "" && !cut.Ends(a[0]) && cut.Ends(a[|a| - 1])
    requires var rest := a[WordLength(a, cut)..]; Words(rest + b, cut) == Words(rest, cut) + Words(b, cut)
    ensures Words(a + b, cut) == Words(a, cut) + Words(b, cut)
  {
    var n := WordLength(a, cut);
    SplitApart(a, b, n);
    WordsOfWord(a[..n], a[n..] + b, cut);
    assert Words(a, cut) == [a[..n]] + Words(a[n..], cut);
  }

  lemma SplitApart(a: string, b: string, n: nat)
    requires n <= |a|
    ensures a[..n] + (a[n..] + b) == a + b
  {
  }

  // ----- lists written with a separator ----------------------------------------

  const NUL := '\0'

  ghost predicate NulFree(s: string) {
    forall i :: 0 <= i < |s| ==> s[i] != NUL
  }

  /** Text up to its first NUL, and what follows, are one text's alone. */
  lemma CutAtNul(x: string, afterX: string, y: string, afterY: string)
    requires NulFree(x) && NulFree(y) && x + [NUL] + afterX == y + [NUL] + afterY
    ensures x == y && afterX == afterY
  {
    var whole := x + [NUL] + afterX;
    assert whole[|x|] == NUL && whole[|y|] == NUL;
    assert forall i :: 0 <= i < |x| ==> whole[i] == x[i];
    assert forall i :: 0 <= i < |y| ==> whole[i] == y[i];
    assert |x| == |y|;
    assert x == whole[..|x|] == y;
    assert afterX == whole[|x| + 1..] == afterY;
  }

  /** strings.Join. */
  function Join(parts: seq<string>, separator: string): string {
    if parts == [] then ""
    else if |parts| == 1 then parts[0]
    else parts[0] + separator + Join(parts[1..], separator)
  }

  lemma {:induction false} JoinMore(parts: seq<string>, last: string, separator: string)
    ensures Join(parts + [last], separator) == if parts == [] then last else Join(parts, separator) + separator + last
  {
    if |parts| > 1 {
      assert (parts + [last])[1..] == parts[1..] + [last];
      JoinMore(parts[1..], last, separator);
      var rest := Join(parts[1..], separator);
      assert parts[0] + separator + (rest + separator + last) == parts[0] + separator + rest + separator + last;
    } else if |parts| == 1 {
      assert (parts + [last])[1..] == [last];
    }
  }

  /** strings.HasPrefix. */
  predicate HasPrefix(s: string, prefix: string) {
    prefix <= s
  }

  /** strings.Contains. */
  predicate Contains(s: string, sub: string) {
    exists i :: 0 <= i <= |s| - |sub| && OccursAt(s, sub, i)
  }

  predicate OccursAt(s: string, sub: string, i: int) {
    0 <= i <= |s| - |sub| && s[i..i + |sub|] == sub
  }
}
