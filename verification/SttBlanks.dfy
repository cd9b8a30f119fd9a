/** What blank transcripts hide (internal/voice/stream_stt.go:205-214). */
module SttBlanks {
  import opened SttSession

  // A transcript of spaces only continues every text and is continued by every
  // text, so that it takes the place of the text it follows.  All other texts are
  // reported as if the blank ones had never come.

  predicate IsBlank(text: string) { SkipSpaces(text) == "" }

  predicate Blank(m: Mark) { m.Heard? && IsBlank(m.text) }

  function WithoutBlanks(h: seq<Mark>): seq<Mark>
  {
    if h == [] then [] else WithoutBlanks(h[..|h| - 1]) + if Blank(h[|h| - 1]) then [] else [h[|h| - 1]]
  }

  function NonBlank(texts: seq<string>): seq<string>
  {
    if texts == [] then []
    else NonBlank(texts[..|texts| - 1]) + if IsBlank(texts[|texts| - 1]) then [] else [texts[|texts| - 1]]
  }

  /** A mark that ends the run of a text. */
  predicate Ends(text: string, m: Mark) { m.Heard? ==> !Comparable(text, m.text) }

  /** The text at k, one or more blanks after it, and then a mark that ends its run. */
  predicate Hides(h: seq<Mark>, k: nat, j: nat)
  {
    && k + 1 < j < |h| && h[k].Heard? && !Blank(h[k]) && !Blank(h[j]) && Ends(h[k].text, h[j])
    && forall i :: k < i < j ==> Blank(h[i])
  }

  /** The text before the last blanks of h, if there are any and m ends its run. */
  function LostTo(h: seq<Mark>, m: Mark): seq<string>
  {
    var text := OpenText(WithoutBlanks(h));
    if h != [] && Blank(h[|h| - 1]) && !Blank(m) && text != "" && Ends(text, m) then [text] else []
  }

  function LostTexts(h: seq<Mark>): seq<string>
  {
    if h == [] then [] else LostTexts(h[..|h| - 1]) + LostTo(h[..|h| - 1], h[|h| - 1])
  }

  // ------------------------------------------------------- one more mark

  lemma WithoutBlanksExtended(h: seq<Mark>, m: Mark)
    ensures WithoutBlanks(h + [m]) == WithoutBlanks(h) + if Blank(m) then [] else [m]
  {
    assert (h + [m])[..|h|] == h;
  }

  lemma NonBlankExtended(texts: seq<string>, text: string)
    ensures NonBlank(texts + [text]) == NonBlank(texts) + if IsBlank(text) then [] else [text]
  {
    assert (texts + [text])[..|texts|] == texts;
  }

  lemma LostTextsExtended(h: seq<Mark>, m: Mark)
    ensures LostTexts(h + [m]) == LostTexts(h) + LostTo(h, m)
  {
    assert (h + [m])[..|h|] == h;
  }

  lemma {:induction false} WithoutBlanksKeeps(h: seq<Mark>)
    requires NoEmpty(h)
    ensures NoEmpty(WithoutBlanks(h))
    ensures forall i :: 0 <= i < |WithoutBlanks(h)| ==> !Blank(WithoutBlanks(h)[i])
  {
    if h != [] {
      WithoutBlanksKeeps(h[..|h| - 1]);
    }
  }

  /** What one more mark adds to the ends of the runs. */
  function EndedBy(text: string, m: Mark): seq<string>
  {
    if text != "" && Ends(text, m) then [text] else []
  }

  lemma EndsExtended(h: seq<Mark>, m: Mark)
    requires NoEmpty(h)
    ensures RunEnds(h + [m]) == RunEnds(h) + EndedBy(OpenText(h), m)
    ensures RunEnds(WithoutBlanks(h + [m])) ==
              RunEnds(WithoutBlanks(h)) + if Blank(m) then [] else EndedBy(OpenText(WithoutBlanks(h)), m)
  {
    RunEndsExtended(h, m);
    WithoutBlanksKeeps(h);
    WithoutBlanksExtended(h, m);
    if Blank(m) {
      assert WithoutBlanks(h + [m]) == WithoutBlanks(h);
    } else {
      RunEndsExtended(WithoutBlanks(h), m);
    }
  }

  lemma OneText(text: string)
    ensures NonBlank([text]) == if IsBlank(text) then [] else [text]
  {
    assert [text][..0] == [];
  }

  lemma NonBlankEnded(text: string, m: Mark)
    ensures NonBlank(EndedBy(text, m)) == if IsBlank(text) then [] else EndedBy(text, m)
  {
    OneText(text);
  }

  /** After a text, or a cut, blanks make no difference. */
  lemma EndedAfterText(h: seq<Mark>, m: Mark)
    requires NoEmpty(h) && (h == [] || !Blank(h[|h| - 1]))
    ensures OpenText(WithoutBlanks(h)) == OpenText(h) && LostTo(h, m) == []
    ensures NonBlank(EndedBy(OpenText(h), m)) == if Blank(m) then [] else EndedBy(OpenText(h), m)
  {
    NonBlankEnded(OpenText(h), m);
    if h != [] {
      assert WithoutBlanks(h) == WithoutBlanks(h[..|h| - 1]) + [h[|h| - 1]];
    }
    assert Blank(m) ==> Comparable(OpenText(h), m.text);
  }

  /** After a blank, what the mark ends is lost. */
  lemma EndedAfterBlank(h: seq<Mark>, m: Mark)
    requires h != [] && Blank(h[|h| - 1])
    ensures NonBlank(EndedBy(OpenText(h), m)) == []
    ensures LostTo(h, m) == if Blank(m) then [] else EndedBy(OpenText(WithoutBlanks(h)), m)
  {
    NonBlankEnded(OpenText(h), m);
  }

  /** Blanks aside, what the mark ends is what it ends without them, or that is lost. */
  lemma EndedOrLost(h: seq<Mark>, m: Mark)
    requires NoEmpty(h)
    ensures NonBlank(EndedBy(OpenText(h), m)) + LostTo(h, m) ==
              if Blank(m) then [] else EndedBy(OpenText(WithoutBlanks(h)), m)
  {
    if h == [] || !Blank(h[|h| - 1]) {
      EndedAfterText(h, m);
    } else {
      EndedAfterBlank(h, m);
    }
  }

  lemma BothGrow<T>(all: seq<T>, some: seq<T>, lost: seq<T>, a: seq<T>, b: seq<T>, c: seq<T>)
    requires multiset(all) == multiset(some) + multiset(lost) && a == b + c
    requires lost == [] ==> all == some
    ensures multiset(all + a) == multiset(some + b) + multiset(lost + c)
    ensures lost + c == [] ==> all + a == some + b
  {
    assert multiset(a) == multiset(b) + multiset(c);
  }

  lemma {:induction false} NonBlankOfSum(a: seq<string>, b: seq<string>)
    ensures NonBlank(a + b) == NonBlank(a) + NonBlank(b)
  {
    if b == [] {
      assert a + b == a;
    } else {
      var c, t := b[..|b| - 1], b[|b| - 1];
      assert a + b == (a + c) + [t] && b == c + [t];
      NonBlankExtended(a + c, t);
      NonBlankOfSum(a, c);
    }
  }

  // ----------------------------------------------------------- main results

  /** The runs that ended, blanks aside, are those reported and those lost. */
  lemma {:induction false} ReportedOrLost(h: seq<Mark>)
    requires NoEmpty(h)
    ensures multiset(RunEnds(WithoutBlanks(h))) == multiset(NonBlank(RunEnds(h))) + multiset(LostTexts(h))
    ensures LostTexts(h) == [] ==> RunEnds(WithoutBlanks(h)) == NonBlank(RunEnds(h))
  {
    if h != [] {
      var g, m := h[..|h| - 1], h[|h| - 1];
      assert h == g + [m];
      ReportedOrLost(g);
      EndsExtended(g, m);
      EndedOrLost(g, m);
      LostTextsExtended(g, m);
      NonBlankOfSum(RunEnds(g), EndedBy(OpenText(g), m));
      BothGrow(RunEnds(WithoutBlanks(g)), NonBlank(RunEnds(g)), LostTexts(g),
               if Blank(m) then [] else EndedBy(OpenText(WithoutBlanks(g)), m),
               NonBlank(EndedBy(OpenText(g), m)), LostTo(g, m));
    }
  }

  /** The text that the blanks at the end of h stand behind. */
  lemma {:induction false} OpenBehindBlanks(h: seq<Mark>) returns (k: int)
    requires NoEmpty(h)
    ensures -1 <= k < |h| && (forall i :: k < i < |h| ==> Blank(h[i])) && (k >= 0 ==> !Blank(h[k]))
    ensures OpenText(WithoutBlanks(h)) == if k >= 0 && h[k].Heard? then h[k].text else ""
  {
    if h == [] {
      k := -1;
    } else {
      var g, m := h[..|h| - 1], h[|h| - 1];
      assert h == g + [m];
      WithoutBlanksExtended(g, m);
      if Blank(m) {
        assert WithoutBlanks(h) == WithoutBlanks(g);
        k := OpenBehindBlanks(g);
      } else {
        k := |h| - 1;
      }
    }
  }

  lemma LostToIffHides(h: seq<Mark>, m: Mark)
    requires NoEmpty(h)
    ensures LostTo(h, m) != [] <==> exists k: nat :: Hides(h + [m], k, |h|)
  {
    var g := h + [m];
    var k := OpenBehindBlanks(h);
    if LostTo(h, m) != [] {
      assert Hides(g, k, |h|);
    }
    if l: nat :| Hides(g, l, |h|) {
      assert Blank(g[|h| - 1]) && h[l] == g[l];
      assert k >= 0 ==> g[k] == h[k];
      assert l == k;
    }
  }

  lemma {:induction false} LostIffHidden(h: seq<Mark>)
    requires NoEmpty(h)
    ensures LostTexts(h) != [] <==> exists k: nat, j: nat :: Hides(h, k, j)
  {
    if h != [] {
      var g, m := h[..|h| - 1], h[|h| - 1];
      assert h == g + [m];
      LostIffHidden(g);
      LostTextsExtended(g, m);
      LostToIffHides(g, m);
      forall k: nat, j: nat | j < |g| ensures Hides(g, k, j) <==> Hides(h, k, j) {}
      if k: nat, j: nat :| Hides(h, k, j) {
        assert j == |g| || Hides(g, k, j);
      }
    }
  }

  /** Leaving out the blank finals, the finals are those of the history without its
      blanks iff every block of blanks after a text is followed, if by anything, by
      a text that continues it one way or the other. */
  lemma BlanksHideNothingIff(h: seq<Mark>)
    requires NoEmpty(h)
    ensures NonBlank(RunEnds(h)) == RunEnds(WithoutBlanks(h)) <==> !exists k: nat, j: nat :: Hides(h, k, j)
  {
    ReportedOrLost(h);
    LostIffHidden(h);
  }

  /** Blanks at the end of a history have ended no run and hidden nothing yet. */
  lemma {:induction false} OpenBlanksEndNothing(h: seq<Mark>, blanks: seq<Mark>)
    requires NoEmpty(h + blanks) && forall i :: 0 <= i < |blanks| ==> Blank(blanks[i])
    ensures RunEnds(h + blanks) == RunEnds(h) && LostTexts(h + blanks) == LostTexts(h)
  {
    if blanks == [] {
      assert h + blanks == h;
    } else {
      var some, m := blanks[..|blanks| - 1], blanks[|blanks| - 1];
      assert h + blanks == (h + some) + [m] && (h + blanks)[..|h + some|] == h + some;
      assert Blank(m) && Comparable(OpenText(h + some), m.text);
      OpenBlanksEndNothing(h, some);
      RunEndsExtended(h + some, m);
      LostTextsExtended(h + some, m);
    }
  }

  /** A blank is itself a final exactly when it is the last thing before a cut. */
  lemma BlankFinals(h: seq<Mark>, k: nat)
    requires k < |h| && Blank(h[k])
    ensures IsRunEnd(h, k) <==> k + 1 < |h| && h[k + 1].Cut?
  {
    assert k + 1 < |h| && h[k + 1].Heard? ==> Comparable(h[k].text, h[k + 1].text);
  }

  lemma {:induction false} NonBlankCounts(texts: seq<string>, t: string)
    ensures multiset(NonBlank(texts))[t] == if IsBlank(t) then 0 else multiset(texts)[t]
  {
    if texts != [] {
      var some, last := texts[..|texts| - 1], texts[|texts| - 1];
      assert texts == some + [last];
      NonBlankCounts(some, t);
    }
  }

  lemma NonBlankOfSame(a: seq<string>, b: seq<string>)
    requires multiset(a) == multiset(b)
    ensures multiset(NonBlank(a)) == multiset(NonBlank(b))
  {
    forall t: string ensures multiset(NonBlank(a))[t] == multiset(NonBlank(b))[t] {
      NonBlankCounts(a, t);
      NonBlankCounts(b, t);
    }
  }

  lemma SumIsSameIffNothing<T>(a: multiset<T>, b: multiset<T>, lost: seq<T>)
    requires a == b + multiset(lost)
    ensures a == b <==> lost == []
  {
    assert |a| == |b| + |lost|;
  }

  /** In every run, whenever no report is outstanding: the texts reported and the
      texts lost are those of the history without its blanks, and all of these have
      been reported iff no text is hidden. */
  lemma ReportedUnlessHidden(states: seq<State>, steps: seq<Step>, k: nat)
    requires Run(states, steps) && k < |states| && Settled(states[k])
    ensures var log := states[k].log;
            && multiset(RunEnds(WithoutBlanks(log.history)))
               == multiset(NonBlank(log.reported)) + multiset(LostTexts(log.history))
            && (multiset(NonBlank(log.reported)) == multiset(RunEnds(WithoutBlanks(log.history)))
                <==> !exists i: nat, j: nat :: Hides(log.history, i, j))
  {
    var log := states[k].log;
    RunKeepsInv(states, steps, k);
    FinalsAreRunEnds(states, steps, k);
    NonBlankOfSame(log.reported, RunEnds(log.history));
    ReportedOrLost(log.history);
    LostIffHidden(log.history);
    SumIsSameIffNothing(multiset(RunEnds(WithoutBlanks(log.history))), multiset(NonBlank(log.reported)),
                        LostTexts(log.history));
  }

  /** A blank before the next text, and one before the cut, which is then reported
      instead. */
  lemma BlankHidesText()
    ensures RunEnds([Heard("ab"), Heard(" "), Heard("cd"), Cut]) == ["cd"]
    ensures RunEnds([Heard("ab"), Heard(" "), Cut]) == [" "]
    ensures RunEnds([Heard("ab"), Heard("cd"), Cut]) == ["ab", "cd"]
  {
    assert SkipSpaces(" ") == "" && SkipSpaces("ab") == "ab" && SkipSpaces("cd") == "cd";
    assert Comparable("ab", " ") && Comparable(" ", "cd") && !Comparable("ab", "cd");
    var h, g := [Heard("ab"), Heard(" "), Heard("cd"), Cut], [Heard("ab"), Heard("cd"), Cut];
    var b := [Heard("ab"), Heard(" "), Cut];
    assert EndsBelow(h, 1) == [] && EndsBelow(h, 2) == [] && EndsBelow(h, 3) == ["cd"];
    assert EndsBelow(b, 1) == [] && EndsBelow(b, 2) == [" "];
    assert EndsBelow(g, 1) == ["ab"] && EndsBelow(g, 2) == ["ab", "cd"];
  }
}
