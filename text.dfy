/**
 * The Python `str` operations the card code relies on, stated over `seq<char>`:
 * `lower`, `capitalize`, `title`, `endswith`, `replace` of one character,
 * `split()` with no separator, `' '.join` and `os.path.splitext`.
 * Case mapping is the ASCII part of Unicode's; `split()` uses Python's full
 * whitespace set.
 */
module Text {

  // ---------------------------------------------------------------------------
  // Characters

  predicate IsUpper(c: char) { 'A' <= c <= 'Z' }
  predicate IsLower(c: char) { 'a' <= c <= 'z' }
  /** A character that has an upper- and a lower-case form. */
  predicate IsCased(c: char) { IsUpper(c) || IsLower(c) }

  function LowerChar(c: char): (d: char)
    ensures !IsUpper(d)
    ensures IsCased(d) == IsCased(c)
    ensures IsCased(c) || d == c
  {
    if IsUpper(c) then (c as int + 32) as char else c
  }

  function UpperChar(c: char): (d: char)
    ensures !IsLower(d)
    ensures IsCased(d) == IsCased(c)
    ensures IsCased(c) || d == c
  {
    if IsLower(c) then (c as int - 32) as char else c
  }

  /** Python's `str.isspace` for one character: the characters `str.split()` splits on. */
  predicate IsSpace(c: char) {
    c == ' ' || ('\t' <= c <= '\r') || ('\U{1C}' <= c <= '\U{1F}')
    || c == '\U{85}' || c == '\U{A0}' || c == '\U{1680}'
    || ('\U{2000}' <= c <= '\U{200A}') || c == '\U{2028}' || c == '\U{2029}'
    || c == '\U{202F}' || c == '\U{205F}' || c == '\U{3000}'
  }

  // ---------------------------------------------------------------------------
  // Whole-string maps

  function Lower(s: string): (r: string)
    ensures |r| == |s|
    ensures forall i :: 0 <= i < |s| ==> r[i] == LowerChar(s[i])
  {
    seq(|s|, i requires 0 <= i < |s| => LowerChar(s[i]))
  }

  /** `s.replace(from, to)` for single characters. */
  function ReplaceChar(s: string, from: char, to: char): (r: string)
    ensures |r| == |s|
    ensures forall i :: 0 <= i < |s| ==> r[i] == (if s[i] == from then to else s[i])
  {
    seq(|s|, i requires 0 <= i < |s| => if s[i] == from then to else s[i])
  }

  predicate EndsWith(s: string, suffix: string) {
    |suffix| <= |s| && s[|s| - |suffix|..] == suffix
  }

  lemma {:induction false} LowerIdempotent(s: string)
    ensures Lower(Lower(s)) == Lower(s)
  {
    var l := Lower(s);
    forall i | 0 <= i < |s| ensures Lower(l)[i] == l[i] {
      assert !IsUpper(l[i]);
    }
  }

  // ---------------------------------------------------------------------------
  // capitalize and title

  /** `w.capitalize()`: first character upper-cased, the rest lower-cased. */
  function Capitalize(w: string): (r: string)
    ensures |r| == |w|
    ensures forall c :: c in r && !IsCased(c) ==> c in w
  {
    if w == [] then [] else [UpperChar(w[0])] + Lower(w[1..])
  }

  /** A word in the form `capitalize` leaves: nothing lower-case first, nothing upper-case after. */
  predicate IsCapitalized(w: string) {
    |w| > 0 && !IsLower(w[0]) && forall j :: 1 <= j < |w| ==> !IsUpper(w[j])
  }

  lemma CapitalizeIsCapitalized(w: string)
    requires |w| > 0
    ensures IsCapitalized(Capitalize(w))
  {
  }

  /** `s.title()` once the previous character's casedness is known. */
  function TitleFrom(s: string, prevCased: bool): (r: string)
    ensures |r| == |s|
  {
    if s == [] then []
    else [if prevCased then LowerChar(s[0]) else UpperChar(s[0])] + TitleFrom(s[1..], IsCased(s[0]))
  }

  /** `s.title()`: every run of cased letters starts upper-case and continues lower-case. */
  function Title(s: string): string {
    TitleFrom(s, false)
  }

  /** Title casing looks only at which characters are letters, so the input's case does not matter. */
  lemma {:induction false} TitleFromIgnoresCase(s: string, prevCased: bool)
    ensures TitleFrom(Lower(s), prevCased) == TitleFrom(s, prevCased)
  {
    if s != [] {
      assert Lower(s)[1..] == Lower(s[1..]);
      TitleFromIgnoresCase(s[1..], IsCased(s[0]));
      var c := s[0];
      assert UpperChar(LowerChar(c)) == UpperChar(c);
      assert LowerChar(LowerChar(c)) == LowerChar(c);
    }
  }

  lemma TitleIgnoresCase(s: string)
    ensures Title(Lower(s)) == Title(s)
  {
    TitleFromIgnoresCase(s, false);
  }

  /** After a letter, a run of lower-case letters is left as it is. */
  lemma {:induction false} TitleFromLowerRun(s: string)
    requires forall i :: 0 <= i < |s| ==> IsLower(s[i])
    ensures TitleFrom(s, true) == s
  {
    if s != [] {
      TitleFromLowerRun(s[1..]);
    }
  }

  /** A lower-case word title-cases to its capitalised form. */
  lemma TitleOfLowerWord(w: string)
    requires |w| > 0 && forall i :: 0 <= i < |w| ==> IsLower(w[i])
    ensures Title(w) == [UpperChar(w[0])] + w[1..]
  {
    TitleFromLowerRun(w[1..]);
  }

  // ---------------------------------------------------------------------------
  // split() and ' '.join

  predicate NoSpace(w: string) { forall c :: c in w ==> !IsSpace(c) }

  /** What `str.split()` can return as one element. */
  predicate IsWord(w: string) { |w| > 0 && NoSpace(w) }

  /** The longest prefix of `s` without whitespace. */
  function WordPrefix(s: string): (w: string)
    ensures |w| <= |s| && w == s[..|w|]
    ensures NoSpace(w)
    ensures |w| < |s| ==> IsSpace(s[|w|])
  {
    if s == [] || IsSpace(s[0]) then [] else [s[0]] + WordPrefix(s[1..])
  }

  /** `s.split()`: the maximal runs of non-whitespace, in order. */
  function Split(s: string): (words: seq<string>)
    ensures forall i :: 0 <= i < |words| ==> IsWord(words[i])
    ensures forall i, c :: 0 <= i < |words| && c in words[i] ==> c in s
    decreases |s|
  {
    if s == [] then []
    else if IsSpace(s[0]) then
      var rest := Split(s[1..]);
      assert forall c :: c in s[1..] ==> c in s;
      rest
    else
      var w := WordPrefix(s);
      var rest := Split(s[|w|..]);
      assert forall c :: c in s[|w|..] ==> c in s;
      [w] + rest
  }

  /**
   * The string read character by character, each whitespace run becoming
   * one space and the runs at either end dropped. `pending` says a run has
   * been seen since the last character kept, `started` that one was kept.
   */
  function Squeeze(s: string, pending: bool, started: bool): string {
    if s == [] then []
    else if IsSpace(s[0]) then Squeeze(s[1..], true, started)
    else (if pending && started then " " else "") + [s[0]] + Squeeze(s[1..], false, true)
  }

  /** `s` with its whitespace runs collapsed to single spaces and trimmed at both ends. */
  function Collapse(s: string): string {
    Squeeze(s, false, false)
  }

  /** `' '.join(words)`. */
  function Join(words: seq<string>): (s: string)
    ensures |words| > 0 ==> |s| >= |words[0]|
  {
    if words == [] then ""
    else if |words| == 1 then words[0]
    else words[0] + " " + Join(words[1..])
  }

  /** No space at either end, and never two spaces in a row. */
  predicate WellSpaced(s: string) {
    && (|s| > 0 ==> s[0] != ' ' && s[|s| - 1] != ' ')
    && forall i :: 0 < i < |s| && s[i] == ' ' ==> s[i - 1] != ' '
  }

  /** Joining words with single spaces never yields a leading, trailing or doubled space. */
  lemma {:induction false} JoinWellSpaced(words: seq<string>)
    requires forall i :: 0 <= i < |words| ==> IsWord(words[i])
    ensures WellSpaced(Join(words))
  {
    if |words| > 1 {
      var w, rest := words[0], Join(words[1..]);
      JoinWellSpaced(words[1..]);
      assert IsWord(words[1]);
      var s := w + " " + rest;
      assert s == Join(words);
      assert ' ' !in w;
      assert rest[0] != ' ' && s[|w| + 1] == rest[0];
      forall i | 0 < i < |s| && s[i] == ' ' ensures s[i - 1] != ' ' {
        if i <= |w| {
          assert s[i - 1] == w[i - 1];
        } else if i > |w| + 1 {
          assert s[i] == rest[i - |w| - 1];
          assert s[i - 1] == rest[i - |w| - 2];
        }
      }
    } else if |words| == 1 {
      var w := words[0];
      forall i | 0 <= i < |w| ensures w[i] != ' ' {
        assert w[i] in w;
      }
    }
  }

  /** A character that is not a space and occurs in no word does not occur in the join. */
  lemma {:induction false} JoinAvoids(words: seq<string>, c: char)
    requires c != ' '
    requires forall i :: 0 <= i < |words| ==> c !in words[i]
    ensures c !in Join(words)
  {
    if |words| > 1 {
      JoinAvoids(words[1..], c);
      assert words[0] + " " + Join(words[1..]) == Join(words);
    }
  }

  lemma {:induction false} WordPrefixOfWord(w: string, t: string)
    requires NoSpace(w)
    requires t == [] || IsSpace(t[0])
    ensures WordPrefix(w + t) == w
  {
    if w != [] {
      assert w[0] in w;
      assert (w + t)[1..] == w[1..] + t;
      assert forall c :: c in w[1..] ==> c in w;
      WordPrefixOfWord(w[1..], t);
    } else {
      assert w + t == t;
    }
  }

  /** Squeezing a word keeps it and clears the pending run. */
  lemma {:induction false} SqueezeWord(w: string, t: string, pending: bool, started: bool)
    requires IsWord(w)
    ensures Squeeze(w + t, pending, started) == (if pending && started then " " else "") + w + Squeeze(t, false, true)
  {
    assert w[0] in w;
    var tail := w[1..];
    assert (w + t)[1..] == tail + t;
    if tail == [] {
      assert [w[0]] == w;
    } else {
      assert forall c :: c in tail ==> c in w;
      SqueezeWord(tail, t, false, true);
      assert [w[0]] + tail == w;
    }
  }

  /**
   * The squeezed string is the single-space join of the words, with one
   * space in front when a run is pending after something was kept.
   */
  lemma {:induction false} SqueezeSplit(s: string, pending: bool, started: bool)
    requires !started || pending || s == [] || !IsSpace(s[0])
    ensures Squeeze(s, pending, started)
         == if Split(s) == [] then [] else (if pending && started then " " else "") + Join(Split(s))
    decreases |s|
  {
    if s != [] && IsSpace(s[0]) {
      SqueezeSplit(s[1..], true, started);
      assert Squeeze(s, pending, started) == Squeeze(s[1..], true, started);
      assert Split(s) == Split(s[1..]);
    } else if s != [] {
      SqueezeSplitWord(s, pending, started);
    }
  }

  lemma ConcatAssoc(a: string, b: string, c: string)
    ensures a + b + c == a + (b + c)
  {
  }

  /** The step of `SqueezeSplit` for a string that starts with a word. */
  lemma {:induction false} SqueezeSplitWord(s: string, pending: bool, started: bool)
    requires s != [] && !IsSpace(s[0])
    ensures Squeeze(s, pending, started) == (if pending && started then " " else "") + Join(Split(s))
    ensures Split(s) != []
    decreases |s|, 0
  {
    var w := WordPrefix(s);
    var t := s[|w|..];
    assert s[0] in w && IsWord(w);
    assert s == w + t;
    SqueezeWord(w, t, pending, started);
    var rest := Split(t);
    assert Split(s) == [w] + rest;
    var pre: string := if pending && started then " " else "";
    var sq := Squeeze(s, pending, started);
    assert sq == pre + w + Squeeze(t, false, true);
    var tail: string := if rest == [] then [] else " " + Join(rest);
    if t == [] {
      assert Squeeze(t, false, true) == [];
    } else {
      SqueezeSplit(t[1..], true, true);
      assert Squeeze(t, false, true) == Squeeze(t[1..], true, true);
      assert rest == Split(t[1..]);
    }
    assert Squeeze(t, false, true) == tail;
    assert Join([w] + rest) == w + tail;
    ConcatAssoc(pre, w, tail);
  }

  /**
   * `' '.join(s.split())` is `s` with every whitespace run collapsed to one
   * space and both ends trimmed. With `SplitJoin` this determines `split()`
   * completely.
   */
  lemma JoinSplit(s: string)
    ensures Join(Split(s)) == Collapse(s)
  {
    SqueezeSplit(s, false, false);
  }

  /** Splitting undoes joining: `' '.join(ws).split() == ws` when every element is a word. */
  lemma {:induction false} SplitJoin(words: seq<string>)
    requires forall i :: 0 <= i < |words| ==> IsWord(words[i])
    ensures Split(Join(words)) == words
  {
    if |words| == 1 {
      var w := words[0];
      WordPrefixOfWord(w, []);
      assert w + [] == w;
      assert w[|w|..] == [];
      assert w[0] in w;
    } else if |words| > 1 {
      var w, rest := words[0], Join(words[1..]);
      SplitJoin(words[1..]);
      var s := w + (" " + rest);
      assert s == Join(words);
      WordPrefixOfWord(w, " " + rest);
      assert w[0] in w;
      assert s[0] == w[0];
      assert s[|w|..] == " " + rest;
      assert (" " + rest)[1..] == rest;
      assert Split(" " + rest) == Split(rest);
    }
  }

  // ---------------------------------------------------------------------------
  // os.path.splitext

  /** The position of the last `c` in `s`, or -1 (Python's `str.rfind`). */
  function LastIndex(s: string, c: char): (k: int)
    ensures -1 <= k < |s|
    ensures k >= 0 ==> s[k] == c
    ensures forall j :: k < j < |s| ==> s[j] != c
  {
    if s == [] then -1
    else if s[|s| - 1] == c then |s| - 1
    else LastIndex(s[..|s| - 1], c)
  }

  /**
   * `os.path.splitext(p)` on POSIX: the extension runs from the last dot,
   * provided that dot lies in the final path component and that component
   * has a non-dot character before it; otherwise the extension is empty.
   */
  function SplitExt(p: string): (string, string) {
    var sep := LastIndex(p, '/');
    var dot := LastIndex(p, '.');
    if dot > sep && !OnlyDots(p[sep + 1..dot]) then (p[..dot], p[dot..]) else (p, [])
  }

  /**
   * The two parts concatenate to the path. A non-empty extension starts at a
   * dot and holds no other dot and no separator, and the last component has
   * a non-dot character before it. An empty extension means the last
   * component has no dot after a non-dot character.
   */
  lemma SplitExtParts(p: string)
    ensures SplitExt(p).0 + SplitExt(p).1 == p
    ensures var ext := SplitExt(p).1;
      ext == [] || (ext[0] == '.' && '.' !in ext[1..] && '/' !in ext)
    ensures SplitExt(p).1 != [] ==> exists k :: LastIndex(p, '/') < k < |SplitExt(p).0| && p[k] != '.'
    ensures SplitExt(p).1 == [] ==> forall k :: LastIndex(p, '/') < k < LastIndex(p, '.') ==> p[k] == '.'
  {
    var sep, dot := LastIndex(p, '/'), LastIndex(p, '.');
    if dot > sep && !OnlyDots(p[sep + 1..dot]) {
      SplitExtTaken(p, sep, dot);
    } else {
      SplitExtKept(p, sep, dot);
    }
  }

  /** The branch of `splitext` that cuts at the last dot. */
  lemma SplitExtTaken(p: string, sep: int, dot: int)
    requires sep == LastIndex(p, '/') && dot == LastIndex(p, '.')
    requires dot > sep && !OnlyDots(p[sep + 1..dot])
    ensures SplitExt(p) == (p[..dot], p[dot..]) && p[..dot] + p[dot..] == p
    ensures p[dot..][0] == '.' && '.' !in p[dot..][1..] && '/' !in p[dot..]
    ensures exists k :: sep < k < dot && p[k] != '.'
  {
    var base := p[sep + 1..dot];
    OnlyDotsMeans(base);
    assert p[..dot] + p[dot..] == p;
    ExtensionAfterLastDot(p, sep, dot);
    var k :| 0 <= k < |base| && base[k] != '.';
    assert p[sep + 1 + k] == base[k];
  }

  /** The branch of `splitext` that keeps the whole path. */
  lemma SplitExtKept(p: string, sep: int, dot: int)
    requires sep == LastIndex(p, '/') && dot == LastIndex(p, '.')
    requires !(dot > sep && !OnlyDots(p[sep + 1..dot]))
    ensures SplitExt(p) == (p, [])
    ensures forall k :: sep < k < dot ==> p[k] == '.'
  {
    if dot > sep {
      OnlyDotsRun(p, sep + 1, dot);
    }
  }

  /** A run of dots inside a string, read by position. */
  lemma OnlyDotsRun(p: string, i: int, j: int)
    requires 0 <= i <= j <= |p| && OnlyDots(p[i..j])
    ensures forall k :: i <= k < j ==> p[k] == '.'
  {
    var run := p[i..j];
    OnlyDotsMeans(run);
    forall k | i <= k < j ensures p[k] == '.' {
      assert p[k] == run[k - i];
    }
  }

  /** From the last dot on, past the last separator, there is no other dot and no separator. */
  lemma ExtensionAfterLastDot(p: string, sep: int, dot: int)
    requires sep == LastIndex(p, '/') && dot == LastIndex(p, '.') && sep < dot
    ensures p[dot..][0] == '.' && '.' !in p[dot..][1..] && '/' !in p[dot..]
  {
    var ext := p[dot..];
    forall j | 0 <= j < |ext| ensures ext[j] != '/' && (j > 0 ==> ext[j] != '.') {
      assert ext[j] == p[dot + j];
    }
    forall j | 0 <= j < |ext[1..]| ensures ext[1..][j] != '.' {
      assert ext[1..][j] == ext[j + 1];
    }
  }

  /** The run between the last separator and the last dot is all dots (the loop of `splitext`). */
  function OnlyDots(s: string): bool {
    s == [] || (s[0] == '.' && OnlyDots(s[1..]))
  }

  lemma {:induction false} OnlyDotsMeans(s: string)
    ensures OnlyDots(s) <==> forall k :: 0 <= k < |s| ==> s[k] == '.'
  {
    if s != [] {
      OnlyDotsMeans(s[1..]);
      assert forall k :: 1 <= k < |s| ==> s[k] == s[1..][k - 1];
    }
  }

  /** A plain `stem.ext` file name splits into `stem` and `.ext`. */
  lemma SplitExtOfFileName(stem: string, ext: string)
    requires '/' !in stem && '/' !in ext && '.' !in ext
    requires exists k :: 0 <= k < |stem| && stem[k] != '.'
    ensures SplitExt(stem + "." + ext) == (stem, "." + ext)
  {
    var p := stem + "." + ext;
    assert p[|stem|] == '.';
    forall j | |stem| < j < |p| ensures p[j] != '.' && p[j] != '/' {
      assert p[j] == ext[j - |stem| - 1];
    }
    forall j | 0 <= j < |stem| ensures p[j] != '/' {
      assert p[j] == stem[j];
    }
    assert LastIndex(p, '.') == |stem|;
    assert LastIndex(p, '/') == -1;
    assert p[..|stem|] == stem && p[0..|stem|] == stem;
    OnlyDotsMeans(stem);
    assert p[|stem|..] == "." + ext;
  }

  /** A name without an extension dot is left whole. */
  lemma SplitExtWithoutDot(p: string)
    requires '.' !in p
    ensures SplitExt(p) == (p, [])
  {
  }
}
