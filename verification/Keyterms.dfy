/** Keyterm correction of dictated text (internal/voice/voice.go). */
module Keyterms {
  // The source measures lengths in bytes and distances in runes; the model takes
  // single-byte text, where the two agree.

  import opened Text
  import opened EditDistance

  const PUNCT := ".,!?;:"

  predicate IsPunct(c: char) { c in PUNCT }

  /** What a word is compared by. */
  function Key(w: string): string { LowerAll(Trim(w, IsPunct)) }

  /** The punctuation a word ends in. */
  function Trail(w: string): string { w[|TrimRight(w, IsPunct)|..] }

  function Budget(term: string): nat { if |term| >= 8 then 2 else 1 }

  function Abs(x: int): nat { if x < 0 then -x else x }

  /** The test the code makes: a length guard, then the distance. */
  predicate Near(lw: string, term: string)
  {
    Abs(|lw| - |LowerAll(term)|) <= Budget(term) && Dist(lw, LowerAll(term)) <= Budget(term)
  }

  /** The words a term speaks for: within its edit budget, itself included. */
  predicate Hits(term: string, lw: string)
  {
    Dist(lw, LowerAll(term)) <= Budget(term)
  }

  /** The length guard never rejects a word the distance test would accept. */
  lemma LengthGuardIsRedundant(lw: string, term: string)
    ensures Near(lw, term) <==> Hits(term, lw)
  {
    DistAtLeastLengthDifference(lw, LowerAll(term));
  }

  function SnapFrom(w: string, lw: string, terms: seq<string>): string
  {
    if |terms| == 0 || lw == LowerAll(terms[0]) then w
    else if Near(lw, terms[0]) then terms[0] + Trail(w)
    else SnapFrom(w, lw, terms[1..])
  }

  function CorrectWord(w: string, terms: seq<string>): string
  {
    if Key(w) == "" then w else SnapFrom(w, Key(w), terms)
  }

  function CorrectWords(words: seq<string>, terms: seq<string>): seq<string>
  {
    seq(|words|, i requires 0 <= i < |words| => CorrectWord(words[i], terms))
  }

  function CorrectText(text: string, terms: seq<string>): string
  {
    if |terms| == 0 then text else Join(CorrectWords(Fields(text), terms), " ")
  }

  // ----------------------------------------------- what a correction is

  /** The first term, in registration order, that a word falls to. */
  ghost predicate FirstHit(terms: seq<string>, lw: string, k: nat)
  {
    k < |terms| && Hits(terms[k], lw) && forall j :: 0 <= j < k ==> !Hits(terms[j], lw)
  }

  /** A word no term speaks for stays; otherwise the first term that does
      decides, and replaces the word unless it is already that term. */
  lemma {:induction false} SnapIsFirstHit(w: string, lw: string, terms: seq<string>)
    ensures (forall t :: t in terms ==> !Hits(t, lw)) ==> SnapFrom(w, lw, terms) == w
    ensures forall k: nat :: FirstHit(terms, lw, k) ==>
              SnapFrom(w, lw, terms) == if lw == LowerAll(terms[k]) then w else terms[k] + Trail(w)
  {
    if |terms| > 0 {
      LengthGuardIsRedundant(lw, terms[0]);
      DistZeroIffEqual(lw, LowerAll(terms[0]));
      SnapIsFirstHit(w, lw, terms[1..]);
      forall k: nat | FirstHit(terms, lw, k)
        ensures SnapFrom(w, lw, terms) == if lw == LowerAll(terms[k]) then w else terms[k] + Trail(w)
      {
        if k > 0 {
          assert !Hits(terms[0], lw);
          forall j | 0 <= j < k - 1 ensures !Hits(terms[1..][j], lw) {
            assert terms[1..][j] == terms[j + 1];
          }
          assert FirstHit(terms[1..], lw, k - 1);
        }
      }
    }
  }

  /** The budget of a term, once more: two edits from eight characters on. */
  ghost predicate Within(term: string, lw: string)
  {
    Dist(lw, LowerAll(term)) <= if |term| >= 8 then 2 else 1
  }

  ghost predicate FirstWithin(terms: seq<string>, lw: string, k: nat)
  {
    k < |terms| && Within(terms[k], lw) && forall j :: 0 <= j < k ==> !Within(terms[j], lw)
  }

  lemma {:induction false} TrimmedLead(lead: string, s: string)
    requires (forall c :: c in lead ==> c in ".,!?;:") && (s != "" ==> s[0] !in ".,!?;:")
    ensures TrimLeft(lead + s, IsPunct) == s
  {
    if lead == "" {
      assert lead + s == s;
    } else {
      assert (lead + s)[1..] == lead[1..] + s && lead[0] in lead;
      TrimmedLead(lead[1..], s);
    }
  }

  lemma {:induction false} TrimmedTail(s: string, tail: string)
    requires (forall c :: c in tail ==> c in ".,!?;:") && (s != "" ==> s[|s| - 1] !in ".,!?;:")
    ensures TrimRight(s + tail, IsPunct) == s
  {
    if tail == "" {
      assert s + tail == s;
    } else {
      var n := |tail| - 1;
      assert (s + tail)[..|s + tail| - 1] == s + tail[..n] && tail[n] in tail;
      TrimmedTail(s, tail[..n]);
    }
  }

  /** A word between punctuation, as it is corrected: to the first term within its
      budget, unless it is that term but for letter case, with the punctuation behind
      the word kept and that before it dropped. */
  lemma WordCorrected(lead: string, core: string, tail: string, terms: seq<string>)
    requires forall c :: c in lead + tail ==> c in ".,!?;:"
    requires core != "" && core[0] !in ".,!?;:" && core[|core| - 1] !in ".,!?;:"
    ensures var w, lw := lead + core + tail, LowerAll(core);
            && ((forall t :: t in terms ==> !Within(t, lw)) ==> CorrectWord(w, terms) == w)
            && forall k: nat :: FirstWithin(terms, lw, k) ==>
                 CorrectWord(w, terms) == if lw == LowerAll(terms[k]) then w else terms[k] + tail
  {
    var w, lw := lead + core + tail, LowerAll(core);
    assert forall c :: c in lead || c in tail ==> c in lead + tail;
    assert w == lead + (core + tail) && (core + tail)[0] == core[0];
    TrimmedLead(lead, core + tail);
    TrimmedTail(core, tail);
    assert (lead + core)[|lead + core| - 1] == core[|core| - 1];
    TrimmedTail(lead + core, tail);
    assert Key(w) == lw && Trail(w) == tail;
    SnapIsFirstHit(w, lw, terms);
    forall k: nat | FirstWithin(terms, lw, k) ensures FirstHit(terms, lw, k) {
      forall j | 0 <= j < k ensures !Hits(terms[j], lw) {
        assert !Within(terms[j], lw);
      }
    }
  }

  /** Punctuation alone stays. */
  lemma PunctuationStays(w: string, terms: seq<string>)
    requires forall c :: c in w ==> c in ".,!?;:"
    ensures CorrectWord(w, terms) == w
  {
    assert w + "" == w;
    TrimmedLead(w, "");
  }

  lemma {:induction false} HitHasFirst(terms: seq<string>, lw: string, k: nat) returns (first: nat)
    requires k < |terms| && Hits(terms[k], lw)
    ensures first <= k && FirstHit(terms, lw, first)
  {
    if j :| 0 <= j < k && Hits(terms[j], lw) {
      first := HitHasFirst(terms, lw, j);
    } else {
      first := k;
    }
  }

  // ------------------------------------------------- registration order

  /** No word can be within budget of two of the terms. */
  ghost predicate FarApart(terms: seq<string>)
  {
    forall i, j :: 0 <= i < j < |terms| ==>
      Dist(LowerAll(terms[i]), LowerAll(terms[j])) > Budget(terms[i]) + Budget(terms[j])
  }

  lemma OneHitOnly(terms: seq<string>, lw: string, s: string, t: string)
    requires FarApart(terms) && s in terms && t in terms && Hits(s, lw) && Hits(t, lw)
    ensures s == t
  {
    var i :| 0 <= i < |terms| && terms[i] == s;
    var j :| 0 <= j < |terms| && terms[j] == t;
    DistSymmetric(lw, LowerAll(s));
    DistSymmetric(lw, LowerAll(t));
    DistTriangle(LowerAll(s), lw, LowerAll(t));
    DistTriangle(LowerAll(t), lw, LowerAll(s));
  }

  lemma WordOrderIndependent(w: string, terms: seq<string>, others: seq<string>)
    requires FarApart(terms) && forall t :: t in terms <==> t in others
    ensures CorrectWord(w, terms) == CorrectWord(w, others)
  {
    var lw := Key(w);
    SnapIsFirstHit(w, lw, terms);
    SnapIsFirstHit(w, lw, others);
    if t :| t in terms && Hits(t, lw) {
      var i :| 0 <= i < |terms| && terms[i] == t;
      var j :| 0 <= j < |others| && others[j] == t;
      var k := HitHasFirst(terms, lw, i);
      var m := HitHasFirst(others, lw, j);
      OneHitOnly(terms, lw, terms[k], others[m]);
    }
  }

  /** With the terms far apart, registering them in another order corrects
      every text the same way. */
  lemma OrderIndependent(text: string, terms: seq<string>, others: seq<string>)
    requires FarApart(terms) && multiset(terms) == multiset(others)
    ensures CorrectText(text, terms) == CorrectText(text, others)
  {
    forall t ensures t in terms <==> t in others {
      assert t in multiset(terms) <==> t in multiset(others);
    }
    assert |multiset(terms)| == |terms| && |multiset(others)| == |others|;
    var words := Fields(text);
    forall i | 0 <= i < |words| ensures CorrectWord(words[i], terms) == CorrectWord(words[i], others) {
      WordOrderIndependent(words[i], terms, others);
    }
    assert CorrectWords(words, terms) == CorrectWords(words, others);
  }

  lemma OrderIndependentBeyondFour(text: string, terms: seq<string>, others: seq<string>)
    requires forall i, j :: 0 <= i < j < |terms| ==> Dist(LowerAll(terms[i]), LowerAll(terms[j])) > 4
    requires multiset(terms) == multiset(others)
    ensures CorrectText(text, terms) == CorrectText(text, others)
  {
    OrderIndependent(text, terms, others);
  }

  /** No white space and no punctuation anywhere. */
  ghost predicate Plain(term: string)
  {
    term != "" && forall c :: c in term ==> !IsSpace(c) && !IsPunct(c)
  }

  lemma LowerPlain(term: string)
    requires Plain(term)
    ensures Plain(LowerAll(term)) && LowerAll(LowerAll(term)) == LowerAll(term)
  {
    forall c | c in LowerAll(term) ensures !IsSpace(c) && !IsPunct(c) && LowerAscii(c) == c {
      var i :| 0 <= i < |term| && c == LowerAscii(term[i]);
      assert term[i] in term;
    }
  }

  lemma PlainLowerWord(lw: string, a: string, b: string, terms: seq<string>)
    requires Plain(a) && Plain(b) && lw != "" && |terms| > 0
    requires forall c :: c in lw ==> c in LowerAll(a) || c in LowerAll(b)
    ensures Plain(lw) && Key(lw) == lw && CorrectText(lw, terms) == SnapFrom(lw, lw, terms) && Trail(lw) == ""
  {
    LowerPlain(a);
    LowerPlain(b);
    forall i | 0 <= i < |lw| ensures LowerAscii(lw[i]) == lw[i] {
      var c := lw[i];
      assert c in LowerAll(LowerAll(a)) || c in LowerAll(LowerAll(b));
    }
    assert lw[0] in lw && lw[|lw| - 1] in lw;
    assert Trim(lw, IsPunct) == lw;
    assert LowerAll(lw) == lw;
    FieldsOfJoin([lw]);
    assert Fields(lw) == [lw];
    assert CorrectWords([lw], terms) == [CorrectWord(lw, terms)];
  }

  lemma OneCharacterTerms(la: string, lb: string)
    ensures |la| == |lb| == 1 ==> Dist(la, lb) <= 1
  {
    if |la| == |lb| == 1 {
      assert Init(la) == "" && Init(lb) == "";
    }
  }

  /** A word that two clashing terms both speak for. */
  lemma ContestedWord(a: string, b: string) returns (lw: string)
    requires Plain(a) && Plain(b) && LowerAll(a) != LowerAll(b)
    requires Dist(LowerAll(a), LowerAll(b)) <= Budget(a) + Budget(b)
    ensures lw != "" && lw != LowerAll(a)
    ensures forall c :: c in lw ==> c in LowerAll(a) || c in LowerAll(b)
    ensures Hits(a, lw) && Hits(b, lw)
  {
    var la, lb := LowerAll(a), LowerAll(b);
    var d := Dist(la, lb);
    if d <= Budget(a) {
      lw := lb;
      DistSymmetric(la, lb);
      DistZeroIffEqual(lb, lb);
    } else {
      var texts := ShortestScript(la, lb);
      var i := Budget(a);
      lw := texts[i];
      assert Script(texts[..i + 1], la, lw);
      assert Script(texts[i..], lw, lb);
      ScriptAtLeastDist(texts[..i + 1], la, lw);
      ScriptAtLeastDist(texts[i..], lw, lb);
      DistTriangle(la, lw, lb);
      DistSymmetric(la, lw);
      DistZeroIffEqual(la, lw);
      OneCharacterTerms(la, lb);
    }
  }

  /** Two clashing terms at the front: some word goes to whichever comes first. */
  lemma FrontDecides(a: string, b: string, rest: seq<string>) returns (text: string)
    requires Plain(a) && Plain(b) && LowerAll(a) != LowerAll(b)
    requires Dist(LowerAll(a), LowerAll(b)) <= Budget(a) + Budget(b)
    ensures CorrectText(text, [a, b] + rest) != CorrectText(text, [b, a] + rest)
  {
    var one, two := [a, b] + rest, [b, a] + rest;
    text := ContestedWord(a, b);
    PlainLowerWord(text, a, b, one);
    PlainLowerWord(text, a, b, two);
    SnapIsFirstHit(text, text, one);
    SnapIsFirstHit(text, text, two);
    assert FirstHit(one, text, 0) && FirstHit(two, text, 0);
    assert CorrectText(text, one) == a + "" == a;
    LowerPlain(b);
    if text != LowerAll(b) {
      assert CorrectText(text, two) == b + "" == b;
    }
  }

  lemma TwoToFront<T>(items: seq<T>, i: nat, j: nat) returns (rest: seq<T>)
    requires i < j < |items|
    ensures multiset([items[i], items[j]] + rest) == multiset(items)
    ensures multiset([items[j], items[i]] + rest) == multiset(items)
  {
    var head, mid, tail := items[..i], items[i + 1..j], items[j + 1..];
    rest := head + mid + tail;
    assert items == head + [items[i]] + mid + [items[j]] + tail;
  }

  ghost predicate Clash(s: string, t: string)
  {
    Dist(LowerAll(s), LowerAll(t)) <= Budget(s) + Budget(t)
  }

  lemma ClashBreaksOrder(terms: seq<string>, i: nat, j: nat) returns (text: string, others: seq<string>)
    requires i < j < |terms| && Plain(terms[i]) && Plain(terms[j])
    requires LowerAll(terms[i]) != LowerAll(terms[j]) && Clash(terms[i], terms[j])
    ensures multiset(others) == multiset(terms) && CorrectText(text, terms) != CorrectText(text, others)
  {
    var a, b := terms[i], terms[j];
    var rest := TwoToFront(terms, i, j);
    text := FrontDecides(a, b, rest);
    others := if CorrectText(text, terms) == CorrectText(text, [a, b] + rest) then [b, a] + rest else [a, b] + rest;
  }

  /** Every text is corrected alike in whatever order the terms are registered. */
  ghost predicate OrderNeverMatters(terms: seq<string>)
  {
    forall text, others ::
      multiset(others) == multiset(terms) ==> CorrectText(text, terms) == CorrectText(text, others)
  }

  /** The distance is not only enough: for plain terms that differ beyond letter
      case it is exactly what order independence takes. */
  lemma OrderIndependentIff(terms: seq<string>)
    requires forall k :: 0 <= k < |terms| ==> Plain(terms[k])
    requires forall i, j :: 0 <= i < j < |terms| ==> LowerAll(terms[i]) != LowerAll(terms[j])
    ensures OrderNeverMatters(terms) <==> FarApart(terms)
  {
    if FarApart(terms) {
      forall text, others | multiset(others) == multiset(terms)
        ensures CorrectText(text, terms) == CorrectText(text, others)
      {
        OrderIndependent(text, terms, others);
      }
    } else {
      var i, j :| 0 <= i < j < |terms| && Clash(terms[i], terms[j]);
      var text, others := ClashBreaksOrder(terms, i, j);
    }
  }

  // --------------------------------------------------------- idempotence

  /** A single word with no punctuation at its edges. */
  ghost predicate Clean(term: string)
  {
    IsWord(term) && !IsPunct(term[0]) && !IsPunct(term[|term| - 1])
  }

  /** No term's own spelling falls to a term registered before it. */
  ghost predicate Settled(terms: seq<string>)
  {
    forall i, j :: 0 <= i < j < |terms| ==> !Hits(terms[i], LowerAll(terms[j]))
  }

  lemma TrimRightStops(t: string, p: string)
    requires t != "" && !IsPunct(t[|t| - 1]) && forall c :: c in p ==> IsPunct(c)
    ensures TrimRight(t + p, IsPunct) == t
  {
    if p == "" {
      assert t + p == t;
    } else {
      assert p[|p| - 1] in p;
      assert (t + p)[..|t + p| - 1] == t + p[..|p| - 1];
      TrimRightStops(t, p[..|p| - 1]);
    }
  }

  lemma ReplacedWord(w: string, term: string)
    requires IsWord(w) && Clean(term)
    ensures IsWord(term + Trail(w)) && Key(term + Trail(w)) == LowerAll(term)
  {
    var out := term + Trail(w);
    TrimRightCuts(w, IsPunct);
    assert out[0] == term[0];
    TrimRightStops(term, Trail(w));
    assert TrimLeft(out, IsPunct) == out;
  }

  lemma TermKeepsItself(w: string, terms: seq<string>, k: nat)
    requires Settled(terms) && k < |terms| && Key(w) == LowerAll(terms[k])
    ensures CorrectWord(w, terms) == w
  {
    DistZeroIffEqual(LowerAll(terms[k]), LowerAll(terms[k]));
    SnapIsFirstHit(w, Key(w), terms);
    assert FirstHit(terms, Key(w), k);
  }

  lemma WordTwice(w: string, terms: seq<string>)
    requires IsWord(w) && Settled(terms) && forall t :: t in terms ==> Clean(t)
    ensures IsWord(CorrectWord(w, terms))
    ensures CorrectWord(CorrectWord(w, terms), terms) == CorrectWord(w, terms)
  {
    SnapIsFirstHit(w, Key(w), terms);
    if i :| 0 <= i < |terms| && Hits(terms[i], Key(w)) {
      var k := HitHasFirst(terms, Key(w), i);
      assert terms[k] in terms;
      ReplacedWord(w, terms[k]);
      TermKeepsItself(terms[k] + Trail(w), terms, k);
    }
  }

  /** Correcting a corrected text changes nothing. */
  lemma CorrectTwice(text: string, terms: seq<string>)
    requires Settled(terms) && forall t :: t in terms ==> Clean(t)
    ensures CorrectText(CorrectText(text, terms), terms) == CorrectText(text, terms)
  {
    if |terms| > 0 {
      var words := Fields(text);
      var once := CorrectWords(words, terms);
      forall i | 0 <= i < |words|
        ensures IsWord(once[i]) && CorrectWord(once[i], terms) == once[i]
      {
        WordTwice(words[i], terms);
      }
      FieldsOfJoin(once);
      assert CorrectWords(once, terms) == once;
    }
  }

  lemma CorrectTwiceBeyondTwo(text: string, terms: seq<string>)
    requires forall t :: t in terms ==> Clean(t)
    requires forall i, j :: 0 <= i < j < |terms| ==> Dist(LowerAll(terms[i]), LowerAll(terms[j])) > 2
    ensures CorrectText(CorrectText(text, terms), terms) == CorrectText(text, terms)
  {
    forall i, j | 0 <= i < j < |terms| ensures !Hits(terms[i], LowerAll(terms[j])) {
      DistSymmetric(LowerAll(terms[i]), LowerAll(terms[j]));
    }
    CorrectTwice(text, terms);
  }

  // ---------------------------------------------------------- the session

  lemma NoTrail(s: string)
    requires |s| > 0 ==> !IsPunct(s[|s| - 1])
    ensures TrimRight(s, IsPunct) == s
  {
  }

  lemma OnePunctMore(s: string, i: nat)
    requires 0 < i <= |s| && IsPunct(s[i - 1])
    ensures TrimRight(s[..i], IsPunct) == TrimRight(s[..i - 1], IsPunct) && [s[i - 1]] + s[i..] == s[i - 1..]
  {
    assert s[..i][..i - 1] == s[..i - 1];
  }

  /** restoreTrailingPunct */
  method RestoreTrailingPunct(original: string, replacement: string) returns (r: string)
    ensures r == replacement + Trail(original)
  {
    var trail := "";
    var i := |original|;
    assert original[..i] == original;
    while i > 0
      invariant 0 <= i <= |original|
      invariant trail == original[i..]
      invariant TrimRight(original, IsPunct) == TrimRight(original[..i], IsPunct)
    {
      if !IsPunct(original[i - 1]) {
        break;
      }
      OnePunctMore(original, i);
      trail := [original[i - 1]] + trail;
      i := i - 1;
    }
    NoTrail(original[..i]);
    r := replacement + trail;
  }

  /** The budget and the guarded distance test of the inner loop. */
  method IsNear(lw: string, term: string) returns (near: bool)
    ensures near == Near(lw, term)
  {
    var lt := LowerAll(term);
    var budget := 1;
    if |lt| >= 8 {
      budget := 2;
    }
    if Abs(|lw| - |lt|) > budget {
      return false;
    }
    var d := Levenshtein(lw, lt);
    near := d <= budget;
  }

  /** The inner loop over the registered terms. */
  method SnapWord(w: string, lw: string, terms: seq<string>) returns (out: string)
    ensures out == SnapFrom(w, lw, terms)
  {
    for j := 0 to |terms|
      invariant SnapFrom(w, lw, terms) == SnapFrom(w, lw, terms[j..])
    {
      assert terms[j..][1..] == terms[j + 1..];
      if lw == LowerAll(terms[j]) {
        return w; // already correct
      }
      var near := IsNear(lw, terms[j]);
      if near {
        out := RestoreTrailingPunct(w, terms[j]);
        return;
      }
    }
    return w;
  }

  /** What the outer loop does to one word. */
  method CorrectOne(w: string, terms: seq<string>) returns (out: string)
    ensures out == CorrectWord(w, terms)
  {
    var lw := LowerAll(Trim(w, IsPunct));
    if lw == "" {
      return w;
    }
    out := SnapWord(w, lw, terms);
  }

  method CorrectInPlace(words: array<string>, terms: seq<string>)
    modifies words
    ensures words[..] == CorrectWords(old(words[..]), terms)
  {
    ghost var corrected := CorrectWords(words[..], terms);
    for i := 0 to words.Length
      invariant forall k :: 0 <= k < i ==> words[k] == corrected[k]
      invariant forall k :: i <= k < words.Length ==> words[k] == old(words[k])
    {
      var out := CorrectOne(words[i], terms);
      words[i] := out;
    }
  }

  class Session {
    var keyterms: seq<string>
    var buffer: seq<string>

    /** Registered terms are trimmed, not blank, and differ beyond letter case. */
    ghost predicate Valid()
      reads this
    {
      && (forall t :: t in keyterms ==> t != "" && TrimSpace(t) == t)
      && (forall i, j :: 0 <= i < j < |keyterms| ==> LowerAll(keyterms[i]) != LowerAll(keyterms[j]))
    }

    constructor ()
      ensures Valid() && keyterms == [] && buffer == []
    {
      keyterms, buffer := [], [];
    }

    method AddKeyterm(raw: string)
      requires Valid()
      modifies this`keyterms
      ensures Valid()
      ensures var term := TrimSpace(raw);
              keyterms == if term == "" || exists k :: k in old(keyterms) && LowerAll(k) == LowerAll(term)
                          then old(keyterms) else old(keyterms) + [term]
    {
      var term := TrimSpace(raw);
      TrimTwice(raw, IsSpace);
      if term == "" {
        return;
      }
      var known := Knows(LowerAll(term));
      if known {
        return;
      }
      keyterms := keyterms + [term];
    }

    /** Whether some registered term is this one but for letter case. */
    method Knows(lower: string) returns (known: bool)
      ensures known <==> exists k :: k in keyterms && LowerAll(k) == lower
    {
      for i := 0 to |keyterms|
        invariant forall j :: 0 <= j < i ==> LowerAll(keyterms[j]) != lower
      {
        if LowerAll(keyterms[i]) == lower {
          return true;
        }
      }
      return false;
    }

    method ApplyKeyterms(text: string) returns (out: string)
      ensures out == CorrectText(text, keyterms)
    {
      var terms := keyterms;
      if |terms| == 0 {
        return text;
      }
      var fields := Fields(text);
      var words := new string[|fields|](i requires 0 <= i < |fields| => fields[i]);
      assert words[..] == fields;
      CorrectInPlace(words, terms);
      out := Join(words[..], " ");
    }

    /** Transcribe, given the transcriber's raw text: the corrected text is
        returned and appended to the dictation buffer. */
    method Transcribe(raw: string) returns (corrected: string)
      requires Valid()
      modifies this`buffer
      ensures Valid() && corrected == CorrectText(raw, keyterms)
      ensures buffer == old(buffer) + [corrected]
    {
      corrected := ApplyKeyterms(raw);
      buffer := buffer + [corrected];
    }
  }
}
