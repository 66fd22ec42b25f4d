/** The relaxed canonical form as a property of the text (sections 3.4.2 and 3.4.4 of RFC 6376): what a
    verifier that shares nothing with this code expects to be signed. */
module ArcRelaxed {
  import opened Ascii
  import opened ArcText
  import L = Lists

  // ---- words ----------------------------------------------------------------------------------

  predicate Blank(c: char) {
    c == ' ' || c == '\t'
  }

  /** The runs of other characters between spaces and tabs. */
  function Words(s: string): (ws: seq<string>)
    ensures s != "" && !Blank(s[0]) ==> ws != []
  {
    if s == "" then []
    else if Blank(s[0]) then Words(s[1..])
    else if |s| == 1 || Blank(s[1]) then [[s[0]]] + Words(s[1..])
    else var ws := Words(s[1..]); [[s[0]] + ws[0]] + ws[1..]
  }

  /** One space between each two. */
  function Join(ws: seq<string>): string {
    if ws == [] then "" else if |ws| == 1 then ws[0] else ws[0] + " " + Join(ws[1..])
  }

  /** No tab, and no two spaces in a row. */
  predicate NoRuns(s: string) {
    '\t' !in s && forall i :: 0 <= i < |s| - 1 ==> !(s[i] == ' ' && s[i + 1] == ' ')
  }

  /** And no white space at either end. */
  predicate Tight(s: string) {
    NoRuns(s) && (s != "" ==> !Blank(s[0]) && !Blank(s[|s| - 1]))
  }

  lemma WordsBlank(c: char, s: string)
    requires Blank(c)
    ensures Words([c] + s) == Words(s)
  {
    L.HeadTail(c, s);
  }

  lemma WordsChar(c: char, s: string)
    requires !Blank(c)
    ensures s == "" || Blank(s[0]) ==> Words([c] + s) == [[c]] + Words(s)
    ensures s != "" && !Blank(s[0]) ==> Words([c] + s) == [[c] + Words(s)[0]] + Words(s)[1..]
  {
    L.HeadTail(c, s);
  }

  /** The words in a nutshell: text without white space is one word, and white space parts words. */
  lemma {:induction false} OneWord(w: string, rest: string)
    requires w != "" && (forall i :: 0 <= i < |w| ==> !Blank(w[i])) && (rest == "" || Blank(rest[0]))
    ensures Words(w + rest) == [w] + Words(rest)
  {
    var c, t := w[0], w[1..];
    if t == "" {
      assert w == [c];
      WordsChar(c, rest);
    } else {
      OneWord(t, rest);
      L.ConsConcat(w, rest);
      assert w + rest == [c] + (t + rest) && (t + rest)[0] == t[0];
      WordsChar(c, t + rest);
      assert [c] + t == w && ([t] + Words(rest))[0] == t && ([t] + Words(rest))[1..] == Words(rest);
    }
  }

  lemma {:induction false} WordsSnoc(s: string, c: char)
    requires Blank(c)
    ensures Words(s + [c]) == Words(s)
  {
    if s == "" {
      assert s + [c] == [c] + "";
      WordsBlank(c, "");
    } else {
      var h, t := s[0], s[1..];
      WordsSnoc(t, c);
      assert s == [h] + t && s + [c] == [h] + (t + [c]);
      if Blank(h) {
        WordsBlank(h, t);
        WordsBlank(h, t + [c]);
      } else {
        WordsChar(h, t);
        WordsChar(h, t + [c]);
      }
    }
  }

  lemma {:induction false} WordsTrimmedRight(s: string)
    ensures Words(TrimWspRight(s)) == Words(s)
    ensures var t := TrimWspRight(s); t <= s && (t != "" ==> !Blank(t[|t| - 1]))
  {
    if s != "" && IsWsp(s[|s| - 1]) {
      L.FrontLast(s);
      WordsSnoc(s[..|s| - 1], s[|s| - 1]);
      WordsTrimmedRight(s[..|s| - 1]);
    }
  }

  lemma {:induction false} WordsTrimmedLeft(s: string)
    ensures Words(TrimWspLeft(s)) == Words(s)
    ensures var t := TrimWspLeft(s); |t| <= |s| && t == s[|s| - |t|..] && (t != "" ==> !Blank(t[0]))
  {
    if s != "" && IsWsp(s[0]) {
      WordsTrimmedLeft(s[1..]);
      assert s == [s[0]] + s[1..];
      WordsBlank(s[0], s[1..]);
    }
  }

  // ---- collapsing -----------------------------------------------------------------------------

  lemma {:induction false} CollapseStarts(s: string)
    ensures Collapse(s, false) == "" <==> s == ""
    ensures s != "" ==> (Blank(Collapse(s, false)[0]) <==> Blank(s[0]))
  {
  }

  lemma {:induction false} WordsCollapsed(s: string, prev: bool)
    ensures Words(Collapse(s, prev)) == Words(s)
  {
    if s != "" {
      var h, t := s[0], s[1..];
      assert s == [h] + t;
      CollapseCons(h, t, prev);
      WordsCollapsed(t, IsWsp(h));
      if Blank(h) {
        WordsBlank(h, t);
        WordsBlank(' ', Collapse(t, true));
        L.EmptyConcat("", Collapse(t, true));
      } else {
        CollapseStarts(t);
        WordsChar(h, t);
        WordsChar(h, Collapse(t, false));
      }
    }
  }

  lemma {:induction false} CollapsedHasNoRuns(s: string, prev: bool)
    ensures NoRuns(Collapse(s, prev)) && (prev && Collapse(s, prev) != "" ==> Collapse(s, prev)[0] != ' ')
  {
    if s != "" {
      CollapsedHasNoRuns(s[1..], IsWsp(s[0]));
      if IsWsp(s[0]) && prev {
        L.EmptyConcat("", Collapse(s[1..], true));
      } else {
        NoRunsCons(if IsWsp(s[0]) then ' ' else s[0], Collapse(s[1..], IsWsp(s[0])));
      }
    }
  }

  lemma NoRunsCons(c: char, t: string)
    requires NoRuns(t) && c != '\t' && (c == ' ' && t != "" ==> t[0] != ' ')
    ensures NoRuns([c] + t)
  {
  }

  lemma NoRunsPart(s: string, i: nat, j: nat)
    requires NoRuns(s) && i <= j <= |s|
    ensures NoRuns(s[i..j])
  {
  }

  /** Text without runs and without white space at its ends is its words, one space between. */
  lemma {:induction false} TightIsJoined(s: string)
    requires Tight(s)
    ensures s == Join(Words(s))
    decreases |s|
  {
    if |s| == 1 {
      assert s[1..] == "" && s == [s[0]];
      assert Words(s) == [s];
    } else if |s| > 1 {
      var h, t := s[0], s[1..];
      assert s == [h] + t;
      WordsChar(h, t);
      if Blank(t[0]) {
        var rest := t[1..];
        assert t[0] == ' ' && t == [' '] + rest && t[0] == s[1] && (rest != "" ==> rest[0] == s[2]);
        NoRunsPart(s, 2, |s|);
        assert rest == s[2..|s|] && rest != "" && rest[|rest| - 1] == s[|s| - 1];
        TightIsJoined(rest);
        WordsBlank(' ', rest);
        JoinCons([h], Words(rest));
        assert s == [h] + " " + rest;
      } else {
        NoRunsPart(s, 1, |s|);
        assert t == s[1..|s|] && t[|t| - 1] == s[|s| - 1];
        TightIsJoined(t);
        JoinLonger(h, Words(t));
      }
    }
  }

  lemma JoinCons(w: string, ws: seq<string>)
    requires ws != []
    ensures Join([w] + ws) == w + " " + Join(ws)
  {
    L.HeadTail(w, ws);
  }

  lemma JoinLonger(c: char, ws: seq<string>)
    requires ws != []
    ensures Join([[c] + ws[0]] + ws[1..]) == [c] + Join(ws)
  {
    var first, rest := [c] + ws[0], ws[1..];
    L.HeadTail(first, rest);
    if |ws| > 1 {
      L.Assoc([c], ws[0], " ");
      L.Assoc([c], ws[0] + " ", Join(rest));
    }
  }

  // ---- header fields --------------------------------------------------------------------------

  /** The value: its words, one space between each two, whatever white space and folding was there. */
  lemma ValueRelaxed(value: string)
    ensures CanonicalValue(value) == Join(Words(Unfold(value))) && Tight(CanonicalValue(value))
  {
    var u := Unfold(value);
    WordsCollapsed(u, false);
    CollapsedHasNoRuns(u, false);
    TrimmedBoth(Collapse(u, false));
    TightIsJoined(CanonicalValue(value));
  }

  lemma {:induction false} TrimmedBoth(c: string)
    requires NoRuns(c)
    ensures var v := TrimWspLeft(TrimWspRight(c)); Tight(v) && Words(v) == Words(c)
  {
    var r := TrimWspRight(c);
    WordsTrimmedRight(c);
    NoRunsPart(c, 0, |r|);
    assert r == c[0..|r|];
    TrimmedAtStart(r);
  }

  lemma {:induction false} TrimmedAtStart(r: string)
    requires NoRuns(r) && (r != "" ==> !Blank(r[|r| - 1]))
    ensures var v := TrimWspLeft(r); Tight(v) && Words(v) == Words(r)
  {
    var v := TrimWspLeft(r);
    WordsTrimmedLeft(r);
    NoRunsPart(r, |r| - |v|, |r|);
    assert v == r[|r| - |v|..|r|];
  }

  // What unfolding does, by cases; `a` has no line break.

  lemma {:induction false} UnfoldBefore(a: string, b: string)
    requires Flat(a)
    ensures Unfold(a + b) == a + Unfold(b)
  {
    if a == "" {
      assert a + b == b;
      L.EmptyConcat(a, Unfold(b));
    } else {
      UnfoldBefore(a[1..], b);
      assert a + b == [a[0]] + (a[1..] + b);
      UnfoldCons(a[0], a[1..] + b);
      assert a + Unfold(b) == [a[0]] + (a[1..] + Unfold(b));
    }
  }

  /** A line break before white space becomes a space. */
  lemma UnfoldsBreak(a: string, w: char, b: string)
    requires Flat(a) && Blank(w)
    ensures Unfold(a + ("\r\n" + [w] + b)) == a + (" " + Unfold(b))
    ensures Unfold(a + ("\n" + [w] + b)) == a + (" " + Unfold([w] + b))
  {
    UnfoldBefore(a, "\r\n" + [w] + b);
    UnfoldBefore(a, "\n" + [w] + b);
    var s := "\r\n" + [w] + b;
    assert s[0] == '\r' && s[1] == '\n' && s[2] == w && s[3..] == b;
    var t := "\n" + [w] + b;
    assert t[0] == '\n' && t[1] == w && t[1..] == [w] + b;
  }

  /** Any other stays. */
  lemma KeepsBreak(a: string, b: string)
    requires Flat(a) && (b == "" || !Blank(b[0]))
    ensures Unfold(a + ("\n" + b)) == a + ("\n" + Unfold(b))
  {
    UnfoldBefore(a, "\n" + b);
    var t := "\n" + b;
    assert t[0] == '\n' && t[1..] == b && (b != "" ==> t[1] == b[0]);
  }

  /** White space in the sense of strings.TrimSpace. */
  predicate White(c: char) {
    c in " \t\n\r\U{b}\U{c}\U{85}\U{a0}"
  }

  lemma WhiteIs(c: char)
    ensures IsSpace(c) <==> White(c)
  {
  }

  lemma {:induction false} SkipsWhite(s: string) returns (before: string)
    ensures s == before + SkipSpace(s) && (forall i :: 0 <= i < |before| ==> White(before[i]))
    ensures SkipSpace(s) != "" ==> !White(SkipSpace(s)[0])
  {
    if s != "" && IsSpace(s[0]) {
      var more := SkipsWhite(s[1..]);
      before := [s[0]] + more;
      assert s == [s[0]] + s[1..];
    } else {
      before := "";
    }
  }

  lemma {:induction false} SkipsWhiteEnd(s: string) returns (behind: string)
    ensures s == SkipSpaceEnd(s) + behind && (forall i :: 0 <= i < |behind| ==> White(behind[i]))
    ensures SkipSpaceEnd(s) != "" ==> !White(SkipSpaceEnd(s)[|SkipSpaceEnd(s)| - 1])
  {
    behind := "";
    if s == "" { return; }
    var front, last := s[..|s| - 1], s[|s| - 1];
    L.FrontLast(s);
    WhiteIs(last);
    if White(last) {
      var more := SkipsWhiteEnd(front);
      behind := more + [last];
      L.Assoc(SkipSpaceEnd(front), more, [last]);
    } else {
      NoBody(s);
    }
  }

  /** Trimming takes white space off both ends, all of it and nothing else. */
  lemma Trimmed(s: string) returns (before: string, behind: string)
    ensures s == before + TrimSpace(s) + behind
    ensures (forall i :: 0 <= i < |before| ==> White(before[i])) && (forall i :: 0 <= i < |behind| ==> White(behind[i]))
    ensures var t := TrimSpace(s); t != "" ==> !White(t[0]) && !White(t[|t| - 1])
  {
    before := SkipsWhite(s);
    behind := SkipsWhiteEnd(SkipSpace(s));
    L.Assoc(before, TrimSpace(s), behind);
  }

  /** A field in relaxed form: the name without white space around it and in small letters, a colon, the
      words of the value with one space between each two, and a line break. */
  lemma HeaderRelaxed(name: string, value: string) returns (before: string, core: string, behind: string, small: string)
    ensures name == before + core + behind && (core != "" ==> !White(core[0]) && !White(core[|core| - 1]))
    ensures (forall i :: 0 <= i < |before| ==> White(before[i])) && (forall i :: 0 <= i < |behind| ==> White(behind[i]))
    ensures |small| == |core|
    ensures forall i :: 0 <= i < |core| ==>
      small[i] as int == core[i] as int + if 65 <= core[i] as int <= 90 then 32 else 0
    ensures CanonicalHeader(name, value) == small + ":" + Join(Words(Unfold(value))) + "\r\n"
  {
    before, behind := Trimmed(name);
    core := TrimSpace(name);
    small := Lower(core);
    LowerMeaning(core);
    ValueRelaxed(value);
  }

  /** Names that differ only in case are signed alike. */
  lemma CaseIsNotSigned(a: string, b: string, value: string)
    requires SameButCase(a, b)
    ensures CanonicalHeader(a, value) == CanonicalHeader(b, value)
  {
    TrimForgetsCase(a, b);
    LowerForgetsCase(TrimSpace(a), TrimSpace(b));
  }

  lemma TrimForgetsCase(a: string, b: string)
    requires SameButCase(a, b)
    ensures SameButCase(TrimSpace(a), TrimSpace(b))
  {
    SkipForgetsCase(a, b);
    SkipEndForgetsCase(SkipSpace(a), SkipSpace(b));
  }

  lemma {:induction false} SkipForgetsCase(a: string, b: string)
    requires SameButCase(a, b)
    ensures SameButCase(SkipSpace(a), SkipSpace(b))
  {
    if a != "" && IsSpace(a[0]) { SkipForgetsCase(a[1..], b[1..]); }
  }

  lemma {:induction false} SkipEndForgetsCase(a: string, b: string)
    requires SameButCase(a, b)
    ensures SameButCase(SkipSpaceEnd(a), SkipSpaceEnd(b))
  {
    if a != "" && IsSpace(a[|a| - 1]) { SkipEndForgetsCase(a[..|a| - 1], b[..|b| - 1]); }
  }

  // ---- the body -------------------------------------------------------------------------------

  /** A line in relaxed form: its words, one space between each two, and one in front if white space
      was there. */
  function RelaxedLine(line: string): string {
    (if line != "" && Blank(line[0]) && Words(line) != [] then " " else "") + Join(Words(line))
  }

  lemma LineRelaxed(line: string)
    ensures CanonicalLine(line) == RelaxedLine(line)
    ensures NoRuns(CanonicalLine(line))
    ensures var r := CanonicalLine(line); (r != "" ==> !Blank(r[|r| - 1])) && (r == "" <==> Words(line) == [])
  {
    var c := Collapse(line, false);
    var r := TrimWspRight(c);
    WordsCollapsed(line, false);
    CollapsedHasNoRuns(line, false);
    WordsTrimmedRight(c);
    NoRunsPart(c, 0, |r|);
    assert r == c[0..|r|];
    CollapseStarts(line);
    LedOrTight(r);
  }

  /** Text without runs and without white space at its end. */
  lemma LedOrTight(r: string)
    requires NoRuns(r) && (r != "" ==> !Blank(r[|r| - 1]))
    ensures r == (if r != "" && Blank(r[0]) then " " else "") + Join(Words(r)) && (r == "" <==> Words(r) == [])
  {
    if r != "" && Blank(r[0]) {
      var t := r[1..];
      NoRunsPart(r, 1, |r|);
      assert t == r[1..|r|] && r == [' '] + t && t != "" && t[0] == r[1] && t[|t| - 1] == r[|r| - 1];
      TightIsJoined(t);
      WordsBlank(' ', t);
    } else {
      TightIsJoined(r);
      L.EmptyConcat("", Join(Words(r)));
    }
  }

  function RelaxedLines(lines: seq<string>): seq<string> {
    seq(|lines|, i requires 0 <= i < |lines| => RelaxedLine(lines[i]))
  }

  lemma AllRelaxed(lines: seq<string>)
    ensures CanonicalLines(lines) == RelaxedLines(lines)
    ensures forall i :: 0 <= i < |lines| ==> (RelaxedLines(lines)[i] == "" <==> Words(lines[i]) == [])
  {
    forall i | 0 <= i < |lines|
      ensures CanonicalLines(lines)[i] == RelaxedLine(lines[i])
        && (RelaxedLine(lines[i]) == "" <==> Words(lines[i]) == [])
    {
      LineRelaxed(lines[i]);
    }
  }

  function WithBreaks(lines: seq<string>): string {
    if lines == [] then "" else lines[0] + "\r\n" + WithBreaks(lines[1..])
  }

  /** Lines joined as they were split: a break between each two. */
  function Joined(lines: seq<string>): string {
    if lines == [] then "" else if |lines| == 1 then lines[0] else lines[0] + "\r\n" + Joined(lines[1..])
  }

  predicate NoBreak(line: string) {
    forall i :: 0 <= i < |line| - 1 ==> !(line[i] == '\r' && line[i + 1] == '\n')
  }

  /** Splitting cuts at every line break and nowhere else. */
  lemma {:induction false} SplitMeaning(s: string)
    ensures Joined(SplitLines(s)) == s && (forall i :: 0 <= i < |SplitLines(s)| ==> NoBreak(SplitLines(s)[i]))
    ensures SplitLines(s)[0] != "" ==> s != "" && SplitLines(s)[0][0] == s[0]
    decreases |s|
  {
    if s == "" {
    } else if |s| > 1 && s[0] == '\r' && s[1] == '\n' {
      SplitMeaning(s[2..]);
      var more := SplitLines(s[2..]);
      L.HeadTail("", more);
      assert s == "" + "\r\n" + s[2..];
    } else {
      SplitMeaning(s[1..]);
      var more := SplitLines(s[1..]);
      var first := [s[0]] + more[0];
      L.HeadTail(first, more[1..]);
      JoinedLonger(s[0], more);
      FirstHasNoBreak(s, more[0]);
      assert s == [s[0]] + s[1..];
    }
  }

  lemma JoinedLonger(c: char, lines: seq<string>)
    requires lines != []
    ensures Joined([[c] + lines[0]] + lines[1..]) == [c] + Joined(lines)
  {
    var first, rest := [c] + lines[0], lines[1..];
    L.HeadTail(first, rest);
    if |lines| > 1 {
      L.Assoc([c], lines[0], "\r\n");
      L.Assoc([c], lines[0] + "\r\n", Joined(rest));
    }
  }

  lemma FirstHasNoBreak(s: string, line: string)
    requires s != "" && !(|s| > 1 && s[0] == '\r' && s[1] == '\n') && NoBreak(line)
    requires line != "" ==> |s| > 1 && line[0] == s[1]
    ensures NoBreak([s[0]] + line)
  {
    var all := [s[0]] + line;
    forall i | 0 <= i < |all| - 1 ensures !(all[i] == '\r' && all[i + 1] == '\n') {
      if i > 0 { assert all[i] == line[i - 1] && all[i + 1] == line[i]; }
    }
  }

  lemma {:induction false} EndsAlike(lines: seq<string>)
    ensures EndLines(lines) == WithBreaks(lines)
  {
    if lines != [] { EndsAlike(lines[1..]); }
  }

  lemma {:induction false} DropsEmpty(lines: seq<string>)
    ensures var kept := DropEmpty(lines);
            && kept <= lines && (kept != [] ==> kept[|kept| - 1] != "")
            && forall i :: |kept| <= i < |lines| ==> lines[i] == ""
  {
    if lines != [] && lines[|lines| - 1] == "" { DropsEmpty(lines[..|lines| - 1]); }
  }

  /** The body in relaxed form: the relaxed lines up to the last that has a word, each with a line break;
      a single line break when there is none. */
  lemma BodyRelaxed(body: string) returns (lines: seq<string>, n: nat)
    ensures Joined(lines) == body && (forall i :: 0 <= i < |lines| ==> NoBreak(lines[i])) && n <= |lines|
    ensures (n > 0 ==> Words(lines[n - 1]) != []) && (forall i :: n <= i < |lines| ==> Words(lines[i]) == [])
    ensures CanonicalBody(body) == if n == 0 then "\r\n" else WithBreaks(RelaxedLines(lines[..n]))
  {
    lines := SplitLines(body);
    SplitMeaning(body);
    AllRelaxed(lines);
    var kept := DropEmpty(RelaxedLines(lines));
    DropsEmpty(RelaxedLines(lines));
    n := |kept|;
    EndsAlike(kept);
    KeptRelaxed(lines, kept);
  }

  lemma KeptRelaxed(lines: seq<string>, kept: seq<string>)
    requires kept <= RelaxedLines(lines)
    ensures kept == RelaxedLines(lines[..|kept|])
  {
  }

  // ---- where the body starts ------------------------------------------------------------------

  lemma {:induction false} FirstBlank(s: string, n: nat)
    requires n + 4 <= |s| && StartsBlank(s[n..]) && forall i :: 0 <= i < n ==> !StartsBlank(s[i..])
    ensures FindBlank(s) == At(n)
    decreases n
  {
    assert s[0..] == s;
    if n > 0 {
      var t := s[1..];
      assert t[n - 1..] == s[n..];
      forall i | 0 <= i < n - 1 ensures !StartsBlank(t[i..]) {
        assert t[i..] == s[i + 1..];
      }
      FirstBlank(t, n - 1);
    }
  }

  /** Header lines, each with its line break, a blank line, and the body: that is how it is split. */
  lemma SplitsThere(headers: string, body: string)
    requires |headers| >= 2 && headers[|headers| - 2] == '\r' && headers[|headers| - 1] == '\n'
    requires forall i :: 0 <= i < |headers| - 3 ==>
      !(headers[i] == '\r' && headers[i + 1] == '\n' && headers[i + 2] == '\r' && headers[i + 3] == '\n')
    ensures SplitMessage(headers + "\r\n" + body) == (headers, body)
  {
    var s, n := headers + "\r\n" + body, |headers| - 2;
    assert s[n] == '\r' && s[n + 1] == '\n' && s[n + 2] == '\r' && s[n + 3] == '\n';
    assert StartsBlank(s[n..]);
    forall i | 0 <= i < n ensures !StartsBlank(s[i..]) {
      assert s[i..][0] == s[i] && s[i..][1] == s[i + 1] && s[i..][2] == s[i + 2] && s[i..][3] == s[i + 3];
      if i < |headers| - 3 {
        assert s[i] == headers[i] && s[i + 1] == headers[i + 1] && s[i + 2] == headers[i + 2]
          && s[i + 3] == headers[i + 3];
      } else {
        assert s[i + 1] == headers[|headers| - 2];
      }
    }
    FirstBlank(s, n);
    assert s[..n + 2] == headers && s[n + 4..] == body;
  }
}
