/** Which committed lines name a path: the search of lines for a path's
    elements, and what its silence says of an entry. */
module Citations {
  import Leftovers
  import opened Text

  // ----- the text of a line ------------------------------------------------------

  /** The characters a path written in a line continues through, in lower case. */
  const PATH_RUNES := {
    'a', 'b', 'c', 'd', 'e', 'f', 'g', 'h', 'i', 'j', 'k', 'l', 'm', 'n', 'o', 'p', 'q', 'r', 's', 't', 'u', 'v',
    'w', 'x', 'y', 'z', '0', '1', '2', '3', '4', '5', '6', '7', '8', '9', '_', '-', '.', '/'}

  const RUNS := Cut(PATH_RUNES, true)

  /** Runs of some alphabet with the slash and the full stop in it. What follows
      is of any such alphabet; the command's own is one. */
  predicate Alphabet(runs: Cut) {
    runs.inside && {'/', '.'} <= runs.chars
  }

  lemma RunsHaveAnAlphabet()
    ensures Alphabet(RUNS)
  {
  }

  function Lower(c: char): char {
    if 'A' <= c <= 'Z' then c - 'A' + 'a' else c
  }

  /** A line as it is searched: either slash a slash, letters in lower case. */
  function Normal(s: string): (r: string)
    ensures |r| == |s|
  {
    if s == "" then "" else [NormalChar(s[0])] + Normal(s[1..])
  }

  function NormalChar(c: char): char {
    Lower(if c == '\\' then '/' else c)
  }

  /** Either slash is a slash, each letter is its small one, and every other character is kept. */
  lemma {:induction false} NormalExactly(s: string, i: nat)
    requires i < |s|
    ensures Normal(s)[i] == if s[i] == '\\' then '/'
                            else if 'A' <= s[i] <= 'Z' then ((s[i] as int) + 32) as char
                            else s[i]
  {
    if i > 0 {
      NormalExactly(s[1..], i - 1);
    }
  }

  /** The characters a path continues through. */
  lemma RunsExactly(c: char)
    ensures !RUNS.Ends(c) <==>
            'a' <= c <= 'z' || '0' <= c <= '9' || c == '_' || c == '-' || c == '.' || c == '/'
  {
  }

  /** strings.TrimRight of full stops: those that end a run end a sentence. */
  function TrimDots(run: string): (r: string)
    ensures r <= run
    ensures r != "" ==> r[|r| - 1] != '.'
    ensures forall i :: |r| <= i < |run| ==> run[i] == '.'
  {
    if run != "" && run[|run| - 1] == '.' then TrimDots(run[..|run| - 1]) else run
  }

  /** What closes a run, so that a path given with it names only a run that ends there. */
  const RUN_END := "\0"

  // ----- elements of a path --------------------------------------------------------

  ghost predicate SlashFree(xs: seq<string>) {
    forall i :: 0 <= i < |xs| ==> '/' !in xs[i]
  }

  /** The elements with a slash before each and one after the last. */
  function Framed(xs: seq<string>): string {
    if xs == [] then "/" else "/" + xs[0] + Framed(xs[1..])
  }

  /** The elements of a run, cut at each slash; two slashes in a row hold an empty one. */
  function Elements(s: string): (xs: seq<string>)
    ensures xs != [] && SlashFree(xs)
  {
    if s == "" then [""]
    else if s[0] == '/' then [""] + Elements(s[1..])
    else var rest := Elements(s[1..]); [[s[0]] + rest[0]] + rest[1..]
  }

  lemma {:induction false} FramedElements(s: string)
    ensures Framed(Elements(s)) == "/" + s + "/"
  {
    if s == "" {
      assert Framed([""]) == "/" + "" + Framed([]);
    } else {
      FramedElements(s[1..]);
      FramedElementsMore(s, Elements(s[1..]));
    }
  }

  lemma FramedElementsMore(s: string, rest: seq<string>)
    requires s != "" && rest == Elements(s[1..]) && Framed(rest) == "/" + s[1..] + "/"
    ensures Framed(Elements(s)) == "/" + s + "/"
  {
    if s[0] == '/' {
      assert ([""] + rest)[1..] == rest;
      assert "/" + "" + ("/" + s[1..] + "/") == "/" + s + "/";
    } else {
      ClosedText(s[0], s[1..], s);
      FramedGrows(s[0], rest, s[1..] + "/");
    }
  }

  lemma ClosedText(c: char, rest: string, s: string)
    requires s == [c] + rest
    ensures "/" + rest + "/" == "/" + (rest + "/") && "/" + s + "/" == "/" + ([c] + (rest + "/"))
  {
  }

  /** A character put before the first element comes before all the framed text but its slash. */
  lemma FramedGrows(c: char, xs: seq<string>, text: string)
    requires xs != [] && Framed(xs) == "/" + text
    ensures Framed([[c] + xs[0]] + xs[1..]) == "/" + ([c] + text)
  {
    var grown := [[c] + xs[0]] + xs[1..];
    assert grown[1..] == xs[1..];
    TextGrows(c, xs[0], Framed(xs[1..]), text);
  }

  lemma TextGrows(c: char, x: string, tail: string, text: string)
    requires "/" + x + tail == "/" + text
    ensures "/" + ([c] + x) + tail == "/" + ([c] + text)
  {
    assert text == ("/" + x + tail)[1..] == x + tail;
  }

  /** xs stands in ys as consecutive whole elements. */
  ghost predicate Within(xs: seq<string>, ys: seq<string>) {
    exists k :: WithinAt(xs, ys, k)
  }

  ghost predicate WithinAt(xs: seq<string>, ys: seq<string>, k: int) {
    0 <= k <= |ys| - |xs| && ys[k..k + |xs|] == xs
  }

  lemma {:induction false} FramedEnds(xs: seq<string>)
    ensures |Framed(xs)| > |xs| && Framed(xs)[0] == '/'
  {
    if xs != [] {
      FramedEnds(xs[1..]);
    }
  }

  lemma {:induction false} FramedAppend(xs: seq<string>, ys: seq<string>)
    ensures |Framed(xs)| > 0
    ensures Framed(xs + ys) == Framed(xs)[..|Framed(xs)| - 1] + Framed(ys)
  {
    if xs == [] {
      assert xs + ys == ys;
    } else {
      FramedAppend(xs[1..], ys);
      FramedEnds(xs[1..]);
      assert (xs + ys)[1..] == xs[1..] + ys;
      var tail := Framed(xs[1..]);
      assert Framed(xs) == "/" + xs[0] + tail;
      assert Framed(xs)[..|Framed(xs)| - 1] == "/" + xs[0] + tail[..|tail| - 1];
    }
  }

  lemma FirstSlash(x: string, after: string)
    requires '/' !in x && after != "" && after[0] == '/'
    ensures var f := "/" + x + after;
            && |f| > |x| + 1 && f[|x| + 1] == '/' && f[1..|x| + 1] == x && f[|x| + 1..] == after
            && forall i :: 1 <= i <= |x| ==> f[i] != '/'
  {
    var f := "/" + x + after;
    forall i | 1 <= i <= |x| ensures f[i] != '/' {
      assert f[i] == x[i - 1] && x[i - 1] in x;
    }
  }

  /** Text up to a first slash, and what follows it, are one text's alone. */
  lemma FirstElement(x: string, afterX: string, y: string, afterY: string)
    requires '/' !in x && '/' !in y
    requires afterX != "" && afterX[0] == '/' && afterY != "" && afterY[0] == '/'
    requires "/" + x + afterX <= "/" + y + afterY
    ensures x == y && afterX <= afterY
  {
    var fx, fy := "/" + x + afterX, "/" + y + afterY;
    FirstSlash(x, afterX);
    FirstSlash(y, afterY);
    assert forall i :: 0 <= i < |fx| ==> fx[i] == fy[i];
    assert |x| == |y|;
    assert fx[1..|x| + 1] == fy[1..|x| + 1];
    assert fx[|x| + 1..] <= fy[|x| + 1..];
  }

  /** The framed text of elements that open other elements opens theirs. */
  lemma {:induction false} FramedPrefix(xs: seq<string>, ys: seq<string>)
    requires SlashFree(xs) && SlashFree(ys) && Framed(xs) <= Framed(ys)
    ensures xs <= ys
  {
    if xs != [] {
      FramedEnds(xs[1..]);
      if ys != [] {
        FramedEnds(ys[1..]);
        FirstElement(xs[0], Framed(xs[1..]), ys[0], Framed(ys[1..]));
        FramedPrefix(xs[1..], ys[1..]);
        assert xs == [xs[0]] + xs[1..] && ys == [ys[0]] + ys[1..];
      }
    }
  }

  /** A framed search finds whole elements, and nothing else. */
  lemma {:induction false} FramedSearch(xs: seq<string>, ys: seq<string>)
    requires SlashFree(xs) && SlashFree(ys)
    ensures Contains(Framed(ys), Framed(xs)) <==> Within(xs, ys)
  {
    if Within(xs, ys) {
      var k :| WithinAt(xs, ys, k);
      var before, after := ys[..k], ys[k + |xs|..];
      assert ys == before + (xs + after);
      FramedAppend(before, xs + after);
      FramedOpens(xs, after);
      PrefixOccurs(Framed(before)[..|Framed(before)| - 1], Framed(xs + after), Framed(xs));
    }
    if Contains(Framed(ys), Framed(xs)) {
      var i :| OccursAt(Framed(ys), Framed(xs), i);
      FramedFound(xs, ys, i);
    }
  }

  lemma PrefixOccurs(before: string, s: string, sub: string)
    requires sub <= s
    ensures Contains(before + s, sub)
  {
    assert (before + s)[|before|..|before| + |sub|] == s[..|sub|];
    assert OccursAt(before + s, sub, |before|);
  }

  lemma FramedOpens(xs: seq<string>, after: seq<string>)
    ensures Framed(xs) <= Framed(xs + after)
  {
    FramedAppend(xs, after);
    FramedLast(xs);
    FramedEnds(after);
  }

  lemma {:induction false} FramedLast(xs: seq<string>)
    ensures |Framed(xs)| > 0 && Framed(xs)[|Framed(xs)| - 1] == '/'
  {
    if xs != [] {
      FramedLast(xs[1..]);
    }
  }

  lemma {:induction false} FramedFound(xs: seq<string>, ys: seq<string>, i: int)
    requires SlashFree(xs) && SlashFree(ys) && OccursAt(Framed(ys), Framed(xs), i)
    ensures Within(xs, ys)
    decreases |ys|
  {
    FramedEnds(xs);
    if i == 0 {
      FramedPrefix(xs, ys);
      assert WithinAt(xs, ys, 0);
    } else if ys != [] {
      var next := PastFirst(ys[0], Framed(ys[1..]), Framed(xs), i);
      FramedFound(xs, ys[1..], next);
      var k :| WithinAt(xs, ys[1..], k);
      assert ys[k + 1..k + 1 + |xs|] == ys[1..][k..k + |xs|];
      assert WithinAt(xs, ys, k + 1);
    }
  }

  /** Text that opens with a slash is found past the first element, or at the start. */
  lemma PastFirst(y: string, after: string, sub: string, i: int) returns (next: int)
    requires '/' !in y && sub != "" && sub[0] == '/'
    requires OccursAt("/" + y + after, sub, i) && i != 0
    ensures OccursAt(after, sub, next)
  {
    var s := "/" + y + after;
    assert s[i] == s[i..i + |sub|][0];
    assert forall j :: 0 <= j < |y| ==> s[j + 1] == y[j] && y[j] in y;
    next := i - 1 - |y|;
    assert s[1 + |y|..] == after;
    assert after[next..next + |sub|] == s[i..i + |sub|];
  }

  // ----- what a line names -----------------------------------------------------------

  /** The elements of a run as they are searched: its own, without the full stops
      it ends with, and the mark of its end. */
  function Searched(run: string): (xs: seq<string>)
    ensures SlashFree(xs)
  {
    assert '/' !in RUN_END;
    Elements(TrimDots(run)) + [RUN_END]
  }

  /** The search's own test of a run: the framed path stands in the closed run. */
  ghost predicate Carries(run: string, path: seq<string>) {
    Contains("/" + TrimDots(run) + "/" + RUN_END + "/", Framed(path))
  }

  /** The test finds whole elements. */
  lemma CarriesElements(run: string, path: seq<string>)
    requires SlashFree(path)
    ensures Carries(run, path) <==> Within(path, Searched(run))
  {
    var trimmed := TrimDots(run);
    FramedElements(trimmed);
    FramedAppend(Elements(trimmed), [RUN_END]);
    assert Framed([RUN_END]) == "/" + RUN_END + "/";
    assert "/" + trimmed + "/" + RUN_END + "/" == ("/" + trimmed) + ("/" + RUN_END + "/");
    assert ("/" + trimmed + "/")[..|trimmed| + 1] == "/" + trimmed;
    FramedSearch(path, Searched(run));
  }

  /** No element holds the character that marks the end of a run. */
  ghost predicate Unmarked(xs: seq<string>) {
    forall i :: 0 <= i < |xs| ==> xs[i] != RUN_END
  }

  /** A path is carried where the run has its elements in a row. */
  lemma CarriedInside(run: string, path: seq<string>)
    requires SlashFree(path) && path != [] && Unmarked(path)
    ensures Carries(run, path) <==> Within(path, Elements(TrimDots(run)))
  {
    CarriesElements(run, path);
    MarkAddsNothing(path, Elements(TrimDots(run)));
  }

  lemma MarkAddsNothing(path: seq<string>, xs: seq<string>)
    requires path != [] && Unmarked(path)
    ensures Within(path, xs + [RUN_END]) <==> Within(path, xs)
  {
    LastAddsNothing(path, xs, RUN_END);
  }

  /** An element other than a path's last, put last, adds no place for the path. */
  lemma LastAddsNothing(path: seq<string>, xs: seq<string>, x: string)
    requires path != [] && path[|path| - 1] != x
    ensures Within(path, xs + [x]) <==> Within(path, xs)
  {
    var more := xs + [x];
    forall k | WithinAt(path, more, k) ensures WithinAt(path, xs, k) {
      assert path[|path| - 1] == more[k + |path| - 1];
      assert more[k..k + |path|] == xs[k..k + |path|];
    }
    forall k | WithinAt(path, xs, k) ensures WithinAt(path, more, k) {
      assert more[k..k + |path|] == xs[k..k + |path|];
    }
  }

  /** A path given with the mark is carried only where the run ends with its elements. */
  lemma CarriedAtEnd(run: string, path: seq<string>)
    requires SlashFree(path) && Unmarked(Elements(TrimDots(run)))
    ensures Carries(run, path + [RUN_END]) <==>
            var xs := Elements(TrimDots(run)); WithinAt(path, xs, |xs| - |path|)
  {
    assert '/' !in RUN_END;
    CarriesElements(run, path + [RUN_END]);
    MarkEnds(path, Elements(TrimDots(run)));
  }

  lemma BeforeLast(xs: seq<string>, last: string, i: nat)
    ensures i < |xs| ==> (xs + [last])[i] == xs[i]
  {
  }

  lemma MarkedIsLast(path: seq<string>, xs: seq<string>, k: int)
    requires Unmarked(xs) && WithinAt(path + [RUN_END], xs + [RUN_END], k)
    ensures k == |xs| - |path| && WithinAt(path, xs, k)
  {
    var n, all := |path|, xs + [RUN_END];
    var found := all[k..k + n + 1];
    assert found == path + [RUN_END];
    assert found[n] == RUN_END && found[n] == all[k + n];
    BeforeLast(xs, RUN_END, k + n);
    assert found[..n] == path;
    assert found[..n] == xs[k..k + n];
  }

  lemma MarkEnds(path: seq<string>, xs: seq<string>)
    requires Unmarked(xs)
    ensures Within(path + [RUN_END], xs + [RUN_END]) <==> WithinAt(path, xs, |xs| - |path|)
  {
    var marked, all := path + [RUN_END], xs + [RUN_END];
    forall k | WithinAt(marked, all, k) ensures WithinAt(path, xs, |xs| - |path|) {
      MarkedIsLast(path, xs, k);
    }
    if WithinAt(path, xs, |xs| - |path|) {
      var k := |xs| - |path|;
      assert all[k..k + |marked|] == xs[k..] + [RUN_END] == marked;
      assert WithinAt(marked, all, k);
    }
  }

  /** A line names a path when a run of path characters in it carries the path's
      elements whole and in a row. */
  ghost predicate Names(runs: Cut, text: string, path: seq<string>) {
    exists i, j :: MaximalRun(Normal(text), runs, i, j) && Within(path, Searched(Normal(text)[i..j]))
  }

  /** The characters are one but for their case or their slash. */
  predicate SameButForm(c: char, d: char) {
    || c == d
    || (c == '/' && d == '\\') || (c == '\\' && d == '/')
    || ('A' <= c <= 'Z' && d as int == c as int + 32) || ('A' <= d <= 'Z' && c as int == d as int + 32)
  }

  /** A line names what it names in any letter case and with either slash. */
  lemma NamedInAnyForm(runs: Cut, s: string, t: string, path: seq<string>)
    requires |s| == |t| && forall i :: 0 <= i < |s| ==> SameButForm(s[i], t[i])
    ensures Names(runs, s, path) <==> Names(runs, t, path)
  {
    forall i | 0 <= i < |s| ensures Normal(s)[i] == Normal(t)[i] {
      NormalExactly(s, i);
      NormalExactly(t, i);
      assert SameButForm(s[i], t[i]);
    }
    assert Normal(s) == Normal(t);
  }

  datatype Line = Line(document: string, number: string, text: string)

  /** cited: the first of the lines that names the path, if any does. */
  method Cited(runs: Cut, lines: seq<Line>, path: seq<string>) returns (at: nat)
    requires SlashFree(path)
    ensures at <= |lines|
    ensures at < |lines| ==> Names(runs, lines[at].text, path)
    ensures forall k :: 0 <= k < at ==> !Names(runs, lines[k].text, path)
  {
    at := 0;
    var inside := Framed(path);
    while at < |lines|
      invariant at <= |lines|
      invariant forall k :: 0 <= k < at ==> !Names(runs, lines[k].text, path)
    {
      var text := Normal(lines[at].text);
      var words := Words(text, runs);
      for r := 0 to |words|
        invariant forall q :: 0 <= q < r ==> !Within(path, Searched(words[q]))
      {
        CarriesElements(words[r], path);
        if Contains("/" + TrimDots(words[r]) + "/" + RUN_END + "/", inside) {
          var i, j := WordsAreRuns(text, runs, words[r]);
          return;
        }
      }
      if Names(runs, lines[at].text, path) {
        var i, j :| MaximalRun(text, runs, i, j) && Within(path, Searched(text[i..j]));
        RunsAreWords(text, runs, i, j, text[i..j]);
      }
      at := at + 1;
    }
  }

  // ----- what the search's silence says ------------------------------------------------

  /** The path as a document writes it. */
  function Written(path: seq<string>): string
    requires |Framed(path)| >= 2
  {
    Framed(path)[1..|Framed(path)| - 1]
  }

  /** A path of one element or more, and not of one empty element alone. */
  ghost predicate IsPath(path: seq<string>) {
    path != [] && SlashFree(path) && Unmarked(path) && |Framed(path)| > 2
  }

  /** The path is in the form the search gives it. */
  ghost predicate InSearchForm(path: seq<string>)
    requires IsPath(path)
  {
    Normal(Written(path)) == Written(path)
  }

  predicate PathCharacters(runs: Cut, s: string) {
    forall i :: 0 <= i < |s| ==> !runs.Ends(s[i])
  }

  lemma FramedIsWritten(path: seq<string>)
    requires path != [] && |Framed(path)| >= 2
    ensures Framed(path) == "/" + Written(path) + "/"
  {
    FramedEnds(path);
    FramedLast(path);
    Wrapped(Framed(path));
  }

  lemma Wrapped(f: string)
    requires |f| >= 2 && f[0] == '/' && f[|f| - 1] == '/'
    ensures f == "/" + f[1..|f| - 1] + "/"
  {
  }

  /** What stands after a path where a line writes it: nothing, a deeper path, or
      the full stops and the character that end a run. */
  ghost predicate StopsAt(runs: Cut, text: string, b: int) {
    0 <= b <= |text| &&
    (|| (b < |text| && text[b] == '/')
     || var e := PastDots(text, b); e == |text| || runs.Ends(text[e]))
  }

  /** Where the full stops from b on end. */
  ghost function PastDots(text: string, b: nat): (e: nat)
    requires b <= |text|
    ensures b <= e <= |text| && DotsUpTo(text, b, e)
    decreases |text| - b
  {
    if b < |text| && text[b] == '.' then PastDots(text, b + 1) else b
  }

  ghost predicate DotsUpTo(text: string, b: int, e: int)
    requires 0 <= b <= e <= |text|
  {
    forall k :: b <= k < e ==> text[k] == '.'
  }

  /** A word stands at a, and neither side continues it. */
  ghost predicate WordAt(runs: Cut, text: string, w: string, a: int) {
    && 0 <= a && a + |w| <= |text|
    && text[a..a + |w|] == w
    && (a == 0 || text[a - 1] == '/' || runs.Ends(text[a - 1]))
    && StopsAt(runs, text, a + |w|)
  }

  ghost predicate Stands(runs: Cut, text: string, w: string) {
    exists a :: WordAt(runs, text, w, a)
  }

  ghost predicate WritesAt(runs: Cut, text: string, path: seq<string>, a: int)
    requires |Framed(path)| >= 2
  {
    WordAt(runs, text, Written(path), a)
  }

  /** A line writes the path out, whole. */
  ghost predicate Writes(runs: Cut, text: string, path: seq<string>)
    requires |Framed(path)| >= 2
  {
    exists a :: WritesAt(runs, Normal(text), path, a)
  }

  /** An unbroken stretch lies in a maximal run. */
  lemma Enclosing(s: string, cut: Cut, a: int, b: int) returns (i: int, j: int)
    requires 0 <= a < b <= |s| && Unbroken(s, cut, a, b)
    ensures MaximalRun(s, cut, i, j) && i <= a && b <= j
  {
    i, j := a, b;
    while i > 0 && !cut.Ends(s[i - 1])
      invariant 0 <= i <= a && Unbroken(s, cut, i, b)
    {
      i := i - 1;
    }
    while j < |s| && !cut.Ends(s[j])
      invariant b <= j <= |s| && Unbroken(s, cut, i, j)
      decreases |s| - j
    {
      j := j + 1;
    }
  }

  /** w stands in t with a slash, or an end of t, on each side. */
  ghost predicate WholeAt(t: string, w: string, p: int) {
    && 0 <= p && p + |w| <= |t|
    && t[p..p + |w|] == w
    && (p > 0 ==> t[p - 1] == '/')
    && (p + |w| < |t| ==> t[p + |w|] == '/')
  }

  /** w stands in s between slashes or the ends of s. */
  ghost predicate Closed(s: string, w: string) {
    Contains("/" + s + "/", "/" + w + "/")
  }

  lemma WholeIsClosed(t: string, w: string, p: int)
    requires WholeAt(t, w, p)
    ensures Closed(t, w)
  {
    var closed, b := "/" + t + "/", p + |w|;
    assert closed[1..|t| + 1] == t;
    assert closed[p + 1..b + 1] == t[p..b];
    assert closed[p] == '/' && closed[b + 1] == '/';
    assert closed[p..b + 2] == [closed[p]] + closed[p + 1..b + 1] + [closed[b + 1]];
    assert OccursAt(closed, "/" + w + "/", p);
  }

  /** Trimming a run of its last full stops leaves whole a word that ends with none. */
  lemma TrimKeepsWhole(run: string, w: string, p: int)
    requires 0 <= p && p + |w| <= |run| && run[p..p + |w|] == w
    requires p > 0 ==> run[p - 1] == '/'
    requires w != "" && w[|w| - 1] != '.'
    requires p + |w| < |run| ==> run[p + |w|] == '/' || DotsUpTo(run, p + |w|, |run|)
    ensures WholeAt(TrimDots(run), w, p)
  {
    LastOfSlice(run, w, p);
    TrimReaches(run, p + |w|);
    TrimStops(run, p + |w|);
    WholeInPrefix(TrimDots(run), run, w, p);
  }

  lemma LastOfSlice(s: string, w: string, p: int)
    requires 0 <= p && p + |w| <= |s| && s[p..p + |w|] == w && w != ""
    ensures s[p + |w| - 1] == w[|w| - 1]
  {
  }

  lemma WholeInPrefix(trimmed: string, run: string, w: string, p: int)
    requires trimmed <= run && 0 <= p && p + |w| <= |trimmed| && run[p..p + |w|] == w
    requires p > 0 ==> run[p - 1] == '/'
    requires p + |w| < |trimmed| ==> trimmed[p + |w|] == '/'
    ensures WholeAt(trimmed, w, p)
  {
    PrefixSlice(trimmed, run, p, p + |w|);
  }

  lemma TrimReaches(run: string, b: int)
    requires 0 < b <= |run| && run[b - 1] != '.'
    ensures |TrimDots(run)| >= b
  {
  }

  lemma TrimStops(run: string, b: int)
    requires 0 <= b <= |run| && (b < |run| ==> run[b] == '/' || DotsUpTo(run, b, |run|))
    ensures b < |TrimDots(run)| ==> TrimDots(run)[b] == '/'
  {
    var trimmed := TrimDots(run);
    assert b < |trimmed| ==> trimmed[|trimmed| - 1] == run[|trimmed| - 1];
  }

  lemma PrefixSlice(short: string, long: string, a: int, b: int)
    requires short <= long && 0 <= a <= b <= |short|
    ensures short[a..b] == long[a..b]
  {
  }

  /** What stops a written path stops it within its run as well. */
  lemma StopsInRun(runs: Cut, s: string, i: int, j: int, b: int)
    requires Alphabet(runs)
    requires MaximalRun(s, runs, i, j) && i <= b <= j && StopsAt(runs, s, b)
    ensures b < j ==> s[b] == '/' || DotsUpTo(s[i..j], b - i, j - i)
  {
    if b < j && s[b] != '/' {
      assert j <= PastDots(s, b);
      assert forall k :: b - i <= k < j - i ==> s[i..j][k] == s[i + k];
    }
  }

  /** A word of path characters that text writes out stands whole in a run of it. */
  lemma FoundInRun(runs: Cut, s: string, w: string) returns (i: int, j: int, p: int)
    requires Alphabet(runs)
    requires Stands(runs, s, w)
    requires w != "" && PathCharacters(runs, w) && w[|w| - 1] != '.'
    ensures MaximalRun(s, runs, i, j)
    ensures WholeAt(TrimDots(s[i..j]), w, p)
  {
    var a :| WordAt(runs, s, w, a);
    WordIsUnbroken(runs, s, w, a);
    i, j := Enclosing(s, runs, a, a + |w|);
    p := a - i;
    WordInRun(runs, s, w, a, i, j);
  }

  lemma WordInRun(runs: Cut, s: string, w: string, a: int, i: int, j: int)
    requires Alphabet(runs) && WordAt(runs, s, w, a) && w != "" && w[|w| - 1] != '.'
    requires MaximalRun(s, runs, i, j) && i <= a && a + |w| <= j
    ensures WholeAt(TrimDots(s[i..j]), w, a - i)
  {
    StopsInRun(runs, s, i, j, a + |w|);
    SliceOfSlice(s, i, j, a, a + |w|);
    TrimKeepsWhole(s[i..j], w, a - i);
  }

  lemma WordIsUnbroken(runs: Cut, s: string, w: string, a: int)
    requires WordAt(runs, s, w, a) && PathCharacters(runs, w)
    ensures Unbroken(s, runs, a, a + |w|)
  {
    forall k | a <= k < a + |w| ensures !runs.Ends(s[k]) {
      assert s[k] == s[a..a + |w|][k - a];
    }
  }

  lemma SliceOfSlice(s: string, i: int, j: int, a: int, b: int)
    requires 0 <= i <= a <= b <= j <= |s|
    ensures s[i..j][a - i..b - i] == s[a..b]
  {
    assert forall k :: 0 <= k < b - a ==> s[i..j][a - i..b - i][k] == s[a..b][k];
  }

  /** A line that writes the path is found to name it, when the path is made of
      path characters and ends with no full stop. */
  lemma WrittenIsNamed(runs: Cut, text: string, path: seq<string>)
    requires Alphabet(runs)
    requires IsPath(path) && Writes(runs, text, path)
    requires PathCharacters(runs, Written(path)) && Written(path)[|Written(path)| - 1] != '.'
    ensures Names(runs, text, path)
  {
    var a :| WritesAt(runs, Normal(text), path, a);
    assert WordAt(runs, Normal(text), Written(path), a);
    var i, j, p := FoundInRun(runs, Normal(text), Written(path));
    WholeIsNamed(runs, text, i, j, path, p);
  }

  /** A path that stands whole in a trimmed run of a line is named by the line. */
  lemma WholeIsNamed(runs: Cut, text: string, i: int, j: int, path: seq<string>, p: int)
    requires path != [] && SlashFree(path) && Unmarked(path) && |Framed(path)| > 2
    requires MaximalRun(Normal(text), runs, i, j) && WholeAt(TrimDots(Normal(text)[i..j]), Written(path), p)
    ensures Names(runs, text, path)
  {
    var trimmed := TrimDots(Normal(text)[i..j]);
    WholeIsClosed(trimmed, Written(path), p);
    FramedIsWritten(path);
    FramedElements(trimmed);
    FramedSearch(path, Elements(trimmed));
    MarkAddsNothing(path, Elements(trimmed));
  }

  /** A named path's text stands whole in a trimmed run of the line. */
  lemma NamedInRun(runs: Cut, text: string, path: seq<string>) returns (i: int, j: int, trimmed: string)
    requires Alphabet(runs)
    requires IsPath(path) && Names(runs, text, path)
    ensures MaximalRun(Normal(text), runs, i, j) && trimmed == TrimDots(Normal(text)[i..j])
    ensures Within(path, Elements(trimmed))
  {
    i, j :| MaximalRun(Normal(text), runs, i, j) && Within(path, Searched(Normal(text)[i..j]));
    trimmed := TrimDots(Normal(text)[i..j]);
    MarkAddsNothing(path, Elements(trimmed));
  }

  /** Elements that hold a path's are, written out, text that holds the path whole. */
  lemma WithinIsWhole(trimmed: string, path: seq<string>) returns (p: int)
    requires IsPath(path) && Within(path, Elements(trimmed))
    ensures WholeAt(trimmed, Written(path), p)
  {
    FramedSearch(path, Elements(trimmed));
    FramedElements(trimmed);
    FramedIsWritten(path);
    p := WordInClosed(trimmed, Written(path));
  }

  /** A named path is made of path characters, and its text stands whole in a run of the
      line, the full stops the run ends with left out. */
  lemma NamedIsWritten(runs: Cut, text: string, path: seq<string>)
      returns (i: int, j: int, trimmed: string, p: int)
    requires Alphabet(runs)
    requires IsPath(path) && Names(runs, text, path)
    ensures PathCharacters(runs, Written(path))
    ensures MaximalRun(Normal(text), runs, i, j) && trimmed == TrimDots(Normal(text)[i..j])
    ensures Within(path, Elements(trimmed)) && WholeAt(trimmed, Written(path), p)
    ensures |Written(path)| <= |trimmed| <= |text|
    ensures trimmed == "" || trimmed[|trimmed| - 1] != '.'
    ensures |trimmed| == |text| ==> trimmed == Normal(text)
    ensures |Written(path)| == |trimmed| ==> Written(path) == trimmed
  {
    i, j, trimmed := NamedInRun(runs, text, path);
    p := WithinIsWhole(trimmed, path);
    WrittenFits(runs, Normal(text), i, j, trimmed, Written(path), p);
  }

  lemma WrittenFits(runs: Cut, s: string, i: int, j: int, trimmed: string, w: string, p: int)
    requires MaximalRun(s, runs, i, j) && trimmed == TrimDots(s[i..j]) && WholeAt(trimmed, w, p)
    ensures PathCharacters(runs, w) && |w| <= |trimmed| <= |s|
    ensures trimmed == "" || trimmed[|trimmed| - 1] != '.'
    ensures |trimmed| == |s| ==> trimmed == s
    ensures |w| == |trimmed| ==> w == trimmed
  {
    RunIsPathCharacters(runs, s, i, j);
    assert |trimmed| == |s| ==> s[i..j] == s;
    forall k | 0 <= k < |w| ensures !runs.Ends(w[k]) {
      assert w[k] == trimmed[p..p + |w|][k];
    }
  }

  lemma RunIsPathCharacters(runs: Cut, s: string, i: int, j: int)
    requires MaximalRun(s, runs, i, j)
    ensures PathCharacters(runs, s[i..j]) && PathCharacters(runs, TrimDots(s[i..j]))
  {
    assert forall k :: 0 <= k < j - i ==> s[i..j][k] == s[i + k];
  }

  /** Closed text found in closed text is that text found in the other. */
  lemma WordInClosed(trimmed: string, w: string) returns (k: int)
    requires Closed(trimmed, w)
    ensures WholeAt(trimmed, w, k)
  {
    var outer, inner := "/" + trimmed + "/", "/" + w + "/";
    k :| 0 <= k <= |outer| - |inner| && OccursAt(outer, inner, k);
    forall q | 0 <= q < |w| ensures w[q] == trimmed[k + q] {
      InsideClosed(inner, w, q);
      Occurrence(outer, inner, k, q + 1);
      InsideClosed(outer, trimmed, k + q);
    }
    assert trimmed[k..k + |w|] == w;
    ClosingSlashes(outer, inner, trimmed, w, k);
  }

  lemma ClosingSlashes(outer: string, inner: string, trimmed: string, w: string, k: int)
    requires outer == "/" + trimmed + "/" && inner == "/" + w + "/" && OccursAt(outer, inner, k)
    ensures k > 0 ==> trimmed[k - 1] == '/'
    ensures k + |w| < |trimmed| ==> trimmed[k + |w|] == '/'
  {
    Occurrence(outer, inner, k, 0);
    Occurrence(outer, inner, k, |w| + 1);
    if k > 0 {
      InsideClosed(outer, trimmed, k - 1);
    }
    if k + |w| < |trimmed| {
      InsideClosed(outer, trimmed, k + |w|);
    }
  }

  lemma InsideClosed(closed: string, s: string, q: int)
    requires closed == "/" + s + "/" && 0 <= q < |s|
    ensures closed[q + 1] == s[q]
  {
  }

  lemma Occurrence(s: string, sub: string, k: int, q: int)
    requires OccursAt(s, sub, k) && 0 <= q < |sub|
    ensures sub[q] == s[k + q]
  {
    assert s[k..k + |sub|][q] == s[k + q];
  }

  /** The search's silence is sound, every line that writes the path is found to
      name it, exactly when the path is made of path characters and ends with no
      full stop. */
  lemma SilenceIsSound(runs: Cut, path: seq<string>)
    requires Alphabet(runs)
    requires IsPath(path) && InSearchForm(path)
    ensures (forall text :: Writes(runs, text, path) ==> Names(runs, text, path)) <==>
            PathCharacters(runs, Written(path)) && Written(path)[|Written(path)| - 1] != '.'
  {
    var w := Written(path);
    if PathCharacters(runs, w) && w[|w| - 1] != '.' {
      forall text | Writes(runs, text, path) ensures Names(runs, text, path) {
        WrittenIsNamed(runs, text, path);
      }
    } else {
      assert WritesAt(runs, Normal(w), path, 0);
      if Names(runs, w, path) {
        var i, j, trimmed, p := NamedIsWritten(runs, w, path);
      }
      assert Writes(runs, w, path) && !Names(runs, w, path);
    }
  }

  /** unnamed: the search tried on a line that is the entry's own path and no more. */
  method Unnamed(runs: Cut, own: string, path: seq<string>) returns (state: Leftovers.State)
    requires SlashFree(path)
    ensures state == if Names(runs, own, path) then Leftovers.Finished else Leftovers.Unknown
  {
    var lines := [Line("", "", own)];
    var at := Cited(runs, lines, path);
    assert lines[0].text == own;
    state := if at == 0 then Leftovers.Finished else Leftovers.Unknown;
  }

  /** The entry's own path, whatever directory it lies in, ends with the path searched for. */
  ghost predicate OwnPath(own: string, root: string, path: seq<string>)
    requires |Framed(path)| >= 2
  {
    Normal(own) == root + "/" + Written(path)
  }

  /** The trial says finished only of a path some line could be found to name; of a
      path that ends with no full stop it says finished exactly when the silence
      of the committed lines is sound. */
  lemma TrialIsSound(runs: Cut, own: string, root: string, path: seq<string>)
    requires Alphabet(runs)
    requires IsPath(path) && InSearchForm(path) && OwnPath(own, root, path)
    ensures Names(runs, own, path) ==> PathCharacters(runs, Written(path))
    ensures Written(path)[|Written(path)| - 1] != '.' ==>
              (Names(runs, own, path) <==> forall text :: Writes(runs, text, path) ==> Names(runs, text, path))
  {
    SilenceIsSound(runs, path);
    if Names(runs, own, path) {
      var i, j, trimmed, p := NamedIsWritten(runs, own, path);
    }
    OwnPathIsWritten(runs, own, root, path);
  }

  lemma OwnPathIsWritten(runs: Cut, own: string, root: string, path: seq<string>)
    requires IsPath(path) && OwnPath(own, root, path)
    ensures Writes(runs, own, path)
  {
    var s, w := Normal(own), Written(path);
    var a := |root| + 1;
    assert s[a..a + |w|] == w;
    assert s[a - 1] == '/';
    assert WritesAt(runs, s, path, a);
  }

  // ----- a path that ends with a full stop -----------------------------------------------

  /** The elements of a run that goes on with one character more. */
  function Grown(xs: seq<string>, c: char): seq<string>
    requires xs != []
  {
    if c == '/' then xs + [""] else xs[..|xs| - 1] + [xs[|xs| - 1] + [c]]
  }

  lemma GrownPastSlash(rest: seq<string>, c: char)
    requires rest != []
    ensures Grown([""] + rest, c) == [""] + Grown(rest, c)
  {
    assert ([""] + rest)[..|rest|] == [""] + rest[..|rest| - 1];
  }

  lemma GrownPastChar(a: char, rest: seq<string>, c: char)
    requires rest != []
    ensures Grown([[a] + rest[0]] + rest[1..], c) == [[a] + Grown(rest, c)[0]] + Grown(rest, c)[1..]
  {
    var xs, grown := [[a] + rest[0]] + rest[1..], Grown(rest, c);
    if c != '/' && |rest| == 1 {
      assert [a] + (rest[0] + [c]) == [a] + rest[0] + [c];
    }
  }

  lemma {:induction false} ElementsOfMore(s: string, c: char)
    ensures Elements(s + [c]) == Grown(Elements(s), c)
  {
    if s == "" {
      assert s + [c] == [c] && [c][1..] == "" && [c] + "" == "" + [c];
      assert Elements([c]) == if c == '/' then [""] + [""] else [[c] + ""] + [""][1..];
    } else {
      ElementsOfMore(s[1..], c);
      assert (s + [c])[1..] == s[1..] + [c];
      if s[0] == '/' {
        GrownPastSlash(Elements(s[1..]), c);
      } else {
        GrownPastChar(s[0], Elements(s[1..]), c);
      }
    }
  }

  /** The elements above the last. */
  function ButLast(xs: seq<string>): seq<string>
    requires xs != []
  {
    xs[..|xs| - 1]
  }

  /** Trimming a run's last full stops trims those of its last element. */
  lemma {:induction false} ElementsOfTrimmed(s: string)
    ensures Elements(TrimDots(s)) == ButLast(Elements(s)) + [TrimDots(Elements(s)[|Elements(s)| - 1])]
  {
    if s != "" {
      var t, c := s[..|s| - 1], s[|s| - 1];
      var xs := Elements(t);
      assert s == t + [c];
      ElementsOfMore(t, c);
      if c == '.' {
        ElementsOfTrimmed(t);
        assert (xs[|xs| - 1] + [c])[..|xs[|xs| - 1]|] == xs[|xs| - 1];
      }
    }
  }

  lemma ClosedJoin(f: string, a: string, g: string, w: string)
    requires f == "/" + a + "/" && g == "/" + w + "/"
    ensures f[..|f| - 1] + g == "/" + (a + "/" + w) + "/"
  {
    assert f[..|f| - 1] == "/" + a;
  }

  lemma FramedTells(xs: seq<string>, ys: seq<string>)
    requires SlashFree(xs) && SlashFree(ys) && Framed(xs) == Framed(ys)
    ensures xs == ys
  {
    FramedPrefix(xs, ys);
    FramedPrefix(ys, xs);
  }

  /** What lies above a path, and the path, are the elements of the two written out. */
  lemma ElementsOfOwn(above: string, path: seq<string>)
    requires IsPath(path)
    ensures Elements(above + "/" + Written(path)) == Elements(above) + path
  {
    FramedElements(above + "/" + Written(path));
    FramedElements(above);
    FramedAppend(Elements(above), path);
    FramedIsWritten(path);
    ClosedJoin(Framed(Elements(above)), above, Framed(path), Written(path));
    FramedTells(Elements(above + "/" + Written(path)), Elements(above) + path);
  }

  lemma LastOfWritten(path: seq<string>)
    requires IsPath(path) && Written(path)[|Written(path)| - 1] == '.'
    ensures var last := path[|path| - 1]; last != "" && last[|last| - 1] == '.'
  {
    var n := |path| - 1;
    assert path == path[..n] + [path[n]];
    FramedAppend(path[..n], [path[n]]);
    assert Framed([path[n]]) == "/" + path[n] + "/";
    var f := Framed(path);
    assert Written(path)[|Written(path)| - 1] == f[|f| - 2];
  }

  /** A run that ends with a path that ends with a full stop carries the path exactly
      where the elements above its last do. */
  lemma CarriedAbove(run: string, above: string, path: seq<string>)
    requires IsPath(path) && Written(path)[|Written(path)| - 1] == '.' && run == above + "/" + Written(path)
    ensures Within(path, Searched(run)) <==> Within(path, ButLast(Elements(run)))
  {
    ElementsOfOwn(above, path);
    LastOfWritten(path);
    TrimmedElsewhere(run, Elements(above), path);
  }

  lemma TrimmedElsewhere(run: string, xs: seq<string>, path: seq<string>)
    requires path != [] && Unmarked(path) && Elements(run) == xs + path
    requires var last := path[|path| - 1]; last != "" && last[|last| - 1] == '.'
    ensures Within(path, Searched(run)) <==> Within(path, ButLast(Elements(run)))
  {
    var last := path[|path| - 1];
    ElementsOfTrimmed(run);
    assert Elements(run)[|Elements(run)| - 1] == last;
    MarkAddsNothing(path, Elements(TrimDots(run)));
    LastAddsNothing(path, ButLast(Elements(run)), TrimDots(last));
  }

  /** A word of the text holds the path. */
  ghost predicate WordHolds(runs: Cut, text: string, path: seq<string>) {
    exists k :: 0 <= k < |Words(Normal(text), runs)| && Within(path, Searched(Words(Normal(text), runs)[k]))
  }

  lemma NamedIsHeld(runs: Cut, text: string, path: seq<string>)
    requires Names(runs, text, path)
    ensures WordHolds(runs, text, path)
  {
    var s := Normal(text);
    var i, j :| MaximalRun(s, runs, i, j) && Within(path, Searched(s[i..j]));
    var w := s[i..j];
    RunsAreWords(s, runs, i, j, w);
    var k :| 0 <= k < |Words(s, runs)| && Words(s, runs)[k] == w;
    assert Within(path, Searched(Words(s, runs)[k]));
  }

  lemma HeldIsNamed(runs: Cut, text: string, path: seq<string>)
    requires WordHolds(runs, text, path)
    ensures Names(runs, text, path)
  {
    var s := Normal(text);
    var k :| 0 <= k < |Words(s, runs)| && Within(path, Searched(Words(s, runs)[k]));
    var w := Words(s, runs)[k];
    var i, j := WordsAreRuns(s, runs, w);
    assert Within(path, Searched(s[i..j]));
  }

  lemma NamesByWords(runs: Cut, text: string, path: seq<string>)
    ensures Names(runs, text, path) <==> WordHolds(runs, text, path)
  {
    if Names(runs, text, path) {
      NamedIsHeld(runs, text, path);
    }
    if WordHolds(runs, text, path) {
      HeldIsNamed(runs, text, path);
    }
  }

  lemma RestOfText(s: string, i: int, a: int, w: string)
    requires 0 <= i <= a < |s| && s[a..] == "/" + w
    ensures s[..i] + s[i..] == s && s[i..] == s[i..a] + "/" + w
  {
  }

  lemma EndOfText(root: string, w: string, s: string)
    requires s == root + "/" + w
    ensures |root| < |s| && s[|root|..] == "/" + w
  {
  }

  /** The end of text from a run's start on is the run. */
  lemma LastRun(s: string, runs: Cut, i: int)
    requires 0 <= i < |s| && Unbroken(s, runs, i, |s|) && (i == 0 || runs.Ends(s[i - 1]))
    ensures Words(s, runs) == Words(s[..i], runs) + [s[i..]]
  {
    var run := s[i..];
    assert s[..i] + run == s;
    assert forall k :: 0 <= k < |run| ==> run[k] == s[i + k];
    WordsAppend(s[..i], run, runs);
    WordsOfWord(run, "", runs);
    assert run + "" == run;
  }

  /** The last run of an own path of path characters ends with the path. */
  lemma LastRunOfOwn(runs: Cut, s: string, root: string, w: string) returns (before: seq<string>, above: string)
    requires Alphabet(runs) && PathCharacters(runs, w) && w != "" && s == root + "/" + w
    ensures Words(s, runs) == before + [above + "/" + w]
  {
    var a := |root|;
    EndOfText(root, w, s);
    forall k | a <= k < |s| ensures !runs.Ends(s[k]) {
      assert s[k] == s[a..][k - a];
    }
    var i, j := Enclosing(s, runs, a, |s|);
    before, above := Words(s[..i], runs), s[i..a];
    LastRun(s, runs, i);
    RestOfText(s, i, a, w);
  }

  /** A run before the last names the path, or the elements above the last run's last do. */
  ghost predicate HeldAbove(words: seq<string>, path: seq<string>) {
    && words != []
    && (|| (exists k :: 0 <= k < |words| - 1 && Within(path, Searched(words[k])))
        || Within(path, ButLast(Elements(words[|words| - 1]))))
  }

  /** A path of path characters that ends with a full stop passes the trial exactly when
      the elements above its last already hold it. */
  lemma FullStopTrial(runs: Cut, own: string, root: string, path: seq<string>)
    requires Alphabet(runs) && IsPath(path) && OwnPath(own, root, path)
    requires PathCharacters(runs, Written(path)) && Written(path)[|Written(path)| - 1] == '.'
    ensures Names(runs, own, path) <==> HeldAbove(Words(Normal(own), runs), path)
  {
    var words := Words(Normal(own), runs);
    var before, above := LastRunOfOwn(runs, Normal(own), root, Written(path));
    assert words[|words| - 1] == above + "/" + Written(path);
    CarriedAbove(words[|words| - 1], above, path);
    NamesByWords(runs, own, path);
  }

  /** The trial misleads exactly so: it says finished of an entry although some line that
      writes its path is not found to name it if and only if the path is of path characters,
      ends with a full stop, and is held by the elements above its last. */
  lemma TrialMisleadsExactly(runs: Cut, own: string, root: string, path: seq<string>)
    requires Alphabet(runs)
    requires IsPath(path) && InSearchForm(path) && OwnPath(own, root, path)
    ensures Names(runs, own, path) && (exists text :: Writes(runs, text, path) && !Names(runs, text, path)) <==>
            && PathCharacters(runs, Written(path)) && Written(path)[|Written(path)| - 1] == '.'
            && HeldAbove(Words(Normal(own), runs), path)
  {
    SilenceIsSound(runs, path);
    TrialIsSound(runs, own, root, path);
    if PathCharacters(runs, Written(path)) && Written(path)[|Written(path)| - 1] == '.' {
      FullStopTrial(runs, own, root, path);
    }
  }

  /** Every path of path characters that ends with a full stop escapes the trial somewhere:
      in a directory that is its own name over again. */
  lemma FullStopEscapesTheTrial(runs: Cut, path: seq<string>)
    requires Alphabet(runs) && IsPath(path) && InSearchForm(path)
    requires PathCharacters(runs, Written(path)) && Written(path)[|Written(path)| - 1] == '.'
    ensures var w := Written(path);
            && OwnPath("/" + w + "/" + w, "/" + w, path) && Names(runs, "/" + w + "/" + w, path)
            && Writes(runs, w, path) && !Names(runs, w, path)
  {
    var w := Written(path);
    NormalOfTwice(w);
    TwiceIsHeld(runs, "/" + w + "/" + w, w);
    WholeIsNamed(runs, "/" + w + "/" + w, 0, 2 * |w| + 2, path, 1);
    FullStopIsMissed(runs, path);
  }

  lemma TwiceIsHeld(runs: Cut, own: string, w: string)
    requires Alphabet(runs) && PathCharacters(runs, w) && own == "/" + w + "/" + w
    ensures |own| == 2 * |w| + 2 && MaximalRun(own, runs, 0, |own|) && own[0..|own|] == own
    ensures WholeAt(TrimDots(own), w, 1)
  {
    var t := TrimDots(own);
    assert own[|w| + 1] == '/' && |t| > |w| + 1;
    assert own[1..1 + |w|] == w;
    assert t[1..1 + |w|] == own[1..1 + |w|];
  }

  lemma FullStopIsMissed(runs: Cut, path: seq<string>)
    requires Alphabet(runs) && IsPath(path) && InSearchForm(path) && Written(path)[|Written(path)| - 1] == '.'
    ensures Writes(runs, Written(path), path) && !Names(runs, Written(path), path)
  {
    var w := Written(path);
    assert WritesAt(runs, Normal(w), path, 0);
    if Names(runs, w, path) {
      var i, j, trimmed, p := NamedIsWritten(runs, w, path);
    }
  }

  lemma NormalOfTwice(w: string)
    requires Normal(w) == w
    ensures Normal("/" + w + "/" + w) == "/" + w + "/" + w
  {
    assert "/" + w + "/" + w == "/" + w + ("/" + w);
    NormalAppend("/" + w, "/" + w);
    NormalAppend("/", w);
  }

  lemma {:induction false} NormalAppend(a: string, b: string)
    ensures Normal(a + b) == Normal(a) + Normal(b)
  {
    if a == "" {
      assert a + b == b;
    } else {
      NormalAppend(a[1..], b);
      assert (a + b)[1..] == a[1..] + b;
    }
  }

  // ----- store fields -----------------------------------------------------------------

  /** A row that opens with a blank continues the field above it. */
  predicate Continues(row: string) {
    row != "" && row[0] in {' ', '\t'}
  }

  /** The row a field's text at the given row opens with. */
  function FieldStart(rows: seq<string>, at: nat): (start: nat)
    requires at < |rows|
    ensures start <= at
    ensures start == 0 || !Continues(rows[start])
    ensures forall k :: start < k <= at ==> Continues(rows[k])
  {
    if at > 0 && Continues(rows[at]) then FieldStart(rows, at - 1) else at
  }

  function LowerText(s: string): string {
    if s == "" then "" else [Lower(s[0])] + LowerText(s[1..])
  }

  /** The row opens with the key store and a colon, in letters of either case. */
  predicate OpensWithStore(row: string) {
    && |row| >= 6
    && row[0] in {'s', 'S'} && row[1] in {'t', 'T'} && row[2] in {'o', 'O'} && row[3] in {'r', 'R'}
    && row[4] in {'e', 'E'} && row[5] == ':'
  }

  lemma StorePrefix(row: string)
    ensures HasPrefix(LowerText(row), "store:") <==> OpensWithStore(row)
  {
    var key := "store:";
    assert key[0] == 's' && key[1] == 't' && key[2] == 'o' && key[3] == 'r' && key[4] == 'e' && key[5] == ':';
    LowerPrefix(row, key);
    if |row| >= 6 {
      SixAlike(row, key);
      LowerTells(row[0], 's', 'S');
      LowerTells(row[1], 't', 'T');
      LowerTells(row[2], 'o', 'O');
      LowerTells(row[3], 'r', 'R');
      LowerTells(row[4], 'e', 'E');
      LowerTells(row[5], ':', ':');
    }
  }

  lemma SixAlike(s: string, t: string)
    requires |s| >= 6 && |t| == 6
    ensures (forall k :: 0 <= k < |t| ==> Lower(s[k]) == t[k]) <==>
            && Lower(s[0]) == t[0] && Lower(s[1]) == t[1] && Lower(s[2]) == t[2] && Lower(s[3]) == t[3]
            && Lower(s[4]) == t[4] && Lower(s[5]) == t[5]
  {
  }

  lemma LowerPrefix(s: string, t: string)
    ensures HasPrefix(LowerText(s), t) <==> |s| >= |t| && forall k :: 0 <= k < |t| ==> Lower(s[k]) == t[k]
  {
    LowerTextIs(s);
    if |s| >= |t| && forall k :: 0 <= k < |t| ==> Lower(s[k]) == t[k] {
      assert LowerText(s)[..|t|] == t;
    }
    if HasPrefix(LowerText(s), t) {
      assert forall k :: 0 <= k < |t| ==> LowerText(s)[k] == t[k];
    }
  }

  lemma LowerTells(c: char, small: char, big: char)
    requires ('a' <= small <= 'z' && big as int == small as int - 32) || small == big == ':'
    ensures Lower(c) == small <==> c == small || c == big
  {
  }

  lemma {:induction false} LowerTextIs(s: string)
    ensures |LowerText(s)| == |s| && forall i :: 0 <= i < |s| ==> LowerText(s)[i] == Lower(s[i])
  {
    if s != "" {
      LowerTextIs(s[1..]);
    }
  }

  /** storeFields keeps a line when the field it lies in is the record's store. */
  method InStoreField(rows: seq<string>, number: nat) returns (kept: bool)
    requires 1 <= number <= |rows|
    ensures kept <==> HasPrefix(LowerText(rows[FieldStart(rows, number - 1)]), "store:")
    ensures exists f ::
              && 0 <= f < number && (f == 0 || rows[f] == "" || (rows[f][0] != ' ' && rows[f][0] != '\t'))
              && (forall k :: f < k < number ==> rows[k] != "" && (rows[k][0] == ' ' || rows[k][0] == '\t'))
              && (kept <==> OpensWithStore(rows[f]))
  {
    ghost var f := FieldStart(rows, number - 1);
    StorePrefix(rows[f]);
    var at := number;
    while at > 1 && Continues(rows[at - 1])
      invariant 1 <= at <= number
      invariant FieldStart(rows, at - 1) == FieldStart(rows, number - 1)
    {
      at := at - 1;
    }
    kept := HasPrefix(LowerText(rows[at - 1]), "store:");
  }

  /** Every row of one field is kept or none is, however many rows it goes on for. */
  lemma {:induction false} OneFieldOneVerdict(rows: seq<string>, first: nat, at: nat)
    requires first <= at < |rows| && forall k :: first < k <= at ==> Continues(rows[k])
    ensures FieldStart(rows, at) == FieldStart(rows, first)
    decreases at - first
  {
    if first < at {
      OneFieldOneVerdict(rows, first, at - 1);
    }
  }
}
