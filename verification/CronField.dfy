/** Cron fields (Parse and parseField in internal/cron/cron.go). */
module CronField {
  import opened Wrappers
  import opened Text
  import opened Decimal

  /** What one comma-separated chunk asks for. */
  datatype Chunk = Chunk(start: int, end: int, step: int)

  function ParseStep(chunk: string): Option<int>
  {
    var idx := IndexOf(chunk, '/');
    if idx == |chunk| then Some(1)
    else
      var n := Atoi(chunk[idx + 1..]);
      if n.None? || n.value <= 0 then None else n
  }

  function ParseBounds(body: string, lo: int, hi: int): Option<(int, int)>
  {
    if body == "*" then Some((lo, hi))
    else if '-' in body then
      var dash := IndexOf(body, '-');
      var a, b := Atoi(body[..dash]), Atoi(body[dash + 1..]);
      if a.None? || b.None? then None else Some((a.value, b.value))
    else
      var v := Atoi(body);
      if v.None? then None else Some((v.value, v.value))
  }

  /** A chunk is a star, a range or a number, with an optional step. */
  function ParseChunk(chunk: string, lo: int, hi: int): (r: Option<Chunk>)
    ensures r.Some? ==> lo <= r.value.start <= r.value.end <= hi && 1 <= r.value.step <= MAX_INT64
  {
    var step := ParseStep(chunk);
    if step.None? then None
    else
      var bounds := ParseBounds(chunk[..IndexOf(chunk, '/')], lo, hi);
      if bounds.None? then None
      else
        var (start, end) := bounds.value;
        if start < lo || end > hi || start > end then None else Some(Chunk(start, end, step.value))
  }

  // ------------------------------------------------------- stepping

  /** Addition on the source's 64-bit int. */
  function Add64(a: int, b: int): int
  {
    if a + b > MAX_INT64 then a + b - 2 * (MAX_INT64 + 1)
    else if a + b < MIN_INT64 then a + b + 2 * (MAX_INT64 + 1)
    else a + b
  }

  const SMALL := 0x1_0000_0000

  /** The turns the loop may still take: with a step near 2^63 the variable wraps
      around, comes back two below where it was, and so runs out all the same. */
  function TurnsLeft(v: int, end: int, step: int): nat
    requires 0 <= end < SMALL && 1 <= step <= MAX_INT64 && MIN_INT64 <= v
  {
    if v > end then 0
    else if end + step <= MAX_INT64 then end - v + 1
    else if v < 0 && v + step > end then 1
    else if v < 0 then 2 * (v + step) + 4 * end + 5
    else 2 * v + 4 * end + 4
  }

  /** The values the loop `for v := start; v <= end; v += step` puts in the set. */
  function Stepped(v: int, end: int, step: int): set<int>
    requires 0 <= end < SMALL && 1 <= step <= MAX_INT64 && MIN_INT64 <= v
    decreases TurnsLeft(v, end, step)
  {
    if v > end then {} else {v} + Stepped(Add64(v, step), end, step)
  }

  /** The values a chunk documents: every step-th one from start to end. */
  function EveryNth(start: int, end: int, step: int): set<int>
    requires step >= 1
  {
    set v | start <= v <= end && OnGrid(start, v, step)
  }

  predicate OnGrid(start: int, v: int, step: int)
    requires step >= 1
  {
    (v - start) % step == 0
  }

  lemma MulAtLeast(m: int, k: int)
    requires m >= 1
    ensures k >= 1 ==> m * k >= m
    ensures k <= -1 ==> m * k <= -m
  {
    if k >= 1 {
      assert m * (k - 1) >= 0;
    } else if k <= -1 {
      assert m * (k + 1) <= 0;
    }
  }

  lemma RemainderUnique(d: int, m: int, q: int, r: int)
    requires m >= 1 && d == m * q + r && 0 <= r < m
    ensures d % m == r
  {
    var k := q - d / m;
    assert d == m * (d / m) + d % m;
    assert m * k == d % m - r;
    MulAtLeast(m, k);
    assert k == 0;
  }

  lemma ModStep(d: int, step: int)
    requires step >= 1
    ensures (d - step) % step == d % step
    ensures 0 <= d < step ==> d % step == d
  {
    var q, r := d / step, d % step;
    assert d - step == step * (q - 1) + r;
    RemainderUnique(d - step, step, q - 1, r);
    if 0 <= d < step {
      RemainderUnique(d, step, 0, d);
    }
  }

  lemma EveryNthStep(start: int, end: int, step: int)
    requires step >= 1 && start <= end
    ensures EveryNth(start, end, step) == {start} + EveryNth(start + step, end, step)
  {
    forall v ensures v in EveryNth(start, end, step) <==> v == start || v in EveryNth(start + step, end, step) {
      ModStep(v - start, step);
      assert v - (start + step) == (v - start) - step;
    }
  }

  lemma {:induction false} SteppedWithoutWrap(start: int, end: int, step: int)
    requires 0 <= end < SMALL && 1 <= step && 0 <= start && end + step <= MAX_INT64
    ensures Stepped(start, end, step) == EveryNth(start, end, step)
    decreases end - start + step
  {
    if start <= end {
      SteppedWithoutWrap(start + step, end, step);
      EveryNthStep(start, end, step);
    }
  }

  /** The loop yields what the chunk documents exactly when the first addition
      stays below 2^63.  Otherwise it wraps and adds values of its own. */
  lemma SteppedIffNoWrap(start: int, end: int, step: int)
    requires 0 <= start <= end < SMALL && 1 <= step <= MAX_INT64
    ensures Stepped(start, end, step) == EveryNth(start, end, step) <==> start + step <= MAX_INT64
    ensures start + step > MAX_INT64 ==> exists v :: v in Stepped(start, end, step) && v < 0
  {
    if end + step <= MAX_INT64 {
      SteppedWithoutWrap(start, end, step);
    } else if start + step <= MAX_INT64 {
      EveryNthStep(start, end, step);
      assert Stepped(start, end, step) == {start};
    } else {
      assert Add64(start, step) in Stepped(start, end, step) && Add64(start, step) < 0;
    }
  }

  /** A wrap can even add values a clock shows: minute 30 with the largest step
      also fires at minute 28. */
  lemma WrappedExample()
    ensures 28 in Stepped(30, 30, MAX_INT64) && 28 !in EveryNth(30, 30, MAX_INT64)
  {
    assert Stepped(30, 30, MAX_INT64) == {30} + Stepped(30 + MAX_INT64 - 2 * (MAX_INT64 + 1), 30, MAX_INT64);
    assert Stepped(30 - MAX_INT64 - 2, 30, MAX_INT64) == {30 - MAX_INT64 - 2} + Stepped(28, 30, MAX_INT64);
  }

  // ----------------------------------------------------------- fields

  /** The set built for a list of chunks; nothing when one is malformed. */
  function ParseChunks(chunks: seq<string>, lo: int, hi: int): Option<set<int>>
    requires 0 <= lo <= hi < SMALL
  {
    if |chunks| == 0 then Some({})
    else
      var before, c := ParseChunks(chunks[..|chunks| - 1], lo, hi), ParseChunk(chunks[|chunks| - 1], lo, hi);
      if before.None? || c.None? then None
      else Some(before.value + Stepped(c.value.start, c.value.end, c.value.step))
  }

  function FieldSet(f: string, lo: int, hi: int): Option<set<int>>
    requires 0 <= lo <= hi < SMALL
  {
    ParseChunks(Split(f, ','), lo, hi)
  }

  /** The innermost loop, on 64-bit integers. */
  method AddSteps(before: set<int>, c: Chunk) returns (out: set<int>)
    requires 0 <= c.start <= c.end < SMALL && 1 <= c.step <= MAX_INT64
    ensures out == before + Stepped(c.start, c.end, c.step)
  {
    out := before;
    var v := c.start;
    while v <= c.end
      invariant MIN_INT64 <= v
      invariant out + Stepped(v, c.end, c.step) == before + Stepped(c.start, c.end, c.step)
      decreases TurnsLeft(v, c.end, c.step)
    {
      out := out + {v};
      v := Add64(v, c.step);
    }
  }

  /** parseField */
  method ParseField(f: string, lo: int, hi: int) returns (r: Option<set<int>>)
    requires 0 <= lo <= hi < SMALL
    ensures r == FieldSet(f, lo, hi)
    ensures r.Some? ==> r.value != {}
  {
    var chunks := Split(f, ',');
    var out: set<int> := {};
    for i := 0 to |chunks|
      invariant ParseChunks(chunks[..i], lo, hi) == Some(out)
      invariant i > 0 ==> out != {}
    {
      assert chunks[..i + 1][..i] == chunks[..i] && chunks[..i + 1][i] == chunks[i];
      var c := ParseChunk(chunks[i], lo, hi);
      if c.None? {
        BadChunk(chunks, i, lo, hi);
        return None;
      }
      out := AddSteps(out, c.value);
    }
    assert chunks[..|chunks|] == chunks;
    r := Some(out);
  }

  lemma {:induction false} BadChunk(chunks: seq<string>, i: nat, lo: int, hi: int)
    requires 0 <= lo <= hi < SMALL && i < |chunks| && ParseChunk(chunks[i], lo, hi).None?
    ensures ParseChunks(chunks, lo, hi).None?
    decreases |chunks|
  {
    if i < |chunks| - 1 {
      BadChunk(chunks[..|chunks| - 1], i, lo, hi);
    }
  }

  /** A field parses iff all its chunks do. */
  lemma {:induction false} ParsesIffChunksDo(chunks: seq<string>, lo: int, hi: int)
    requires 0 <= lo <= hi < SMALL
    ensures ParseChunks(chunks, lo, hi).Some? <==> forall c :: c in chunks ==> ParseChunk(c, lo, hi).Some?
  {
    if |chunks| > 0 {
      var before, last := chunks[..|chunks| - 1], chunks[|chunks| - 1];
      ParsesIffChunksDo(before, lo, hi);
      LastChunk(chunks, lo, hi);
      assert forall c :: c in chunks <==> c in before || c == last by {
        assert chunks == before + [last];
      }
    }
  }

  lemma LastChunk(chunks: seq<string>, lo: int, hi: int)
    requires 0 <= lo <= hi < SMALL && |chunks| > 0
    ensures ParseChunks(chunks, lo, hi).Some? <==>
              ParseChunks(chunks[..|chunks| - 1], lo, hi).Some? && ParseChunk(chunks[|chunks| - 1], lo, hi).Some?
  {
  }

  ghost predicate Documents(c: Chunk, v: int)
    requires c.step >= 1
  {
    v in EveryNth(c.start, c.end, c.step)
  }

  /** Which values a parsed field holds: those some chunk documents, provided no
      chunk's step wraps; a wrapping step adds a negative value, so that the field
      means what it says iff no step wraps. */
  lemma {:induction false} FieldMeaning(chunks: seq<string>, lo: int, hi: int)
    requires 0 <= lo <= hi < SMALL && ParseChunks(chunks, lo, hi).Some?
    ensures forall c :: c in chunks ==> ParseChunk(c, lo, hi).Some?
    ensures (forall v :: v in ParseChunks(chunks, lo, hi).value
                <==> exists c :: c in chunks && Documents(ParseChunk(c, lo, hi).value, v))
       <==> forall c :: c in chunks ==>
              ParseChunk(c, lo, hi).value.start + ParseChunk(c, lo, hi).value.step <= MAX_INT64
    ensures (exists c :: c in chunks && ParseChunk(c, lo, hi).value.start + ParseChunk(c, lo, hi).value.step > MAX_INT64)
        ==> exists v :: v in ParseChunks(chunks, lo, hi).value && v < 0
  {
    ParsesIffChunksDo(chunks, lo, hi);
    if |chunks| > 0 {
      var before, last := chunks[..|chunks| - 1], chunks[|chunks| - 1];
      assert chunks == before + [last];
      FieldMeaning(before, lo, hi);
      var c := ParseChunk(last, lo, hi).value;
      SteppedIffNoWrap(c.start, c.end, c.step);
    }
  }

  // ------------------------------------------------- what the texts mean

  /** A text without a step asks for the values from start to end. */
  ghost predicate Spans(body: string, lo: int, hi: int, start: int, end: int)
  {
    || (body == "*" && start == lo && end == hi)
    || (body != "*" && '-' !in body && Atoi(body) == Some(start) && end == start)
    || exists a, b :: body == a + ("-" + b) && '-' !in a && Atoi(a) == Some(start) && Atoi(b) == Some(end)
  }

  /** A text asks for a body with a step, 1 unless it gives one. */
  ghost predicate Steps(chunk: string, body: string, step: int)
  {
    && '/' !in body
    && ((chunk == body && step == 1)
        || exists k :: chunk == body + ("/" + k) && Atoi(k) == Some(step) && step > 0)
  }

  /** A text asks for every step-th value from start to end, all of them in range. */
  ghost predicate Means(chunk: string, lo: int, hi: int, c: Chunk)
  {
    lo <= c.start <= c.end <= hi && exists body :: Steps(chunk, body, c.step) && Spans(body, lo, hi, c.start, c.end)
  }

  lemma FoundIfIn(s: string, c: char)
    ensures c in s <==> IndexOf(s, c) < |s|
  {
    assert s[..|s|] == s;
  }

  lemma NotInPrefix(s: string, c: char, j: nat, i: nat)
    requires i <= |s| && c !in s[..i] && j < |s| && s[j] == c
    ensures i <= j
  {
    assert forall k :: 0 <= k < i ==> s[..i][k] == s[k];
  }

  lemma FirstAt(s: string, c: char, t: string, i: nat)
    requires c !in s && i <= |s + ([c] + t)| && c !in (s + ([c] + t))[..i]
    requires i < |s + ([c] + t)| ==> (s + ([c] + t))[i] == c
    ensures i == |s|
  {
    var whole := s + ([c] + t);
    assert whole[|s|] == c && forall k :: 0 <= k < |s| ==> whole[k] == s[k];
    NotInPrefix(whole, c, |s|, i);
  }

  lemma Around(s: string, c: char, t: string)
    requires c !in s
    ensures var whole := s + ([c] + t);
            c in whole && IndexOf(whole, c) == |s| && whole[..|s|] == s && whole[|s| + 1..] == t
  {
    FirstAt(s, c, t, IndexOf(s + ([c] + t), c));
    assert (s + ([c] + t))[|s|] == c;
  }

  lemma CutAt(whole: string, i: nat)
    requires i < |whole|
    ensures whole == whole[..i] + ([whole[i]] + whole[i + 1..])
  {
  }

  lemma RangeIsParsed(body: string, lo: int, hi: int, i: nat, start: int, end: int)
    requires body != "*" && '-' in body && IndexOf(body, '-') == i < |body|
    requires Atoi(body[..i]) == Some(start) && Atoi(body[i + 1..]) == Some(end)
    ensures ParseBounds(body, lo, hi) == Some((start, end))
  {
  }

  lemma SpansIsParsed(body: string, lo: int, hi: int, start: int, end: int)
    requires Spans(body, lo, hi, start, end)
    ensures ParseBounds(body, lo, hi) == Some((start, end))
  {
    if a, b :| body == a + ("-" + b) && '-' !in a && Atoi(a) == Some(start) && Atoi(b) == Some(end) {
      Around(a, '-', b);
      RangeIsParsed(body, lo, hi, |a|, start, end);
    }
  }

  lemma RangeSpans(body: string, lo: int, hi: int, i: nat, start: int, end: int)
    requires i < |body| && body[i] == '-' && '-' !in body[..i]
    requires Atoi(body[..i]) == Some(start) && Atoi(body[i + 1..]) == Some(end)
    ensures Spans(body, lo, hi, start, end)
  {
    CutAt(body, i);
  }

  lemma ParsedSpans(body: string, lo: int, hi: int)
    requires ParseBounds(body, lo, hi).Some?
    ensures Spans(body, lo, hi, ParseBounds(body, lo, hi).value.0, ParseBounds(body, lo, hi).value.1)
  {
    if body != "*" && '-' in body {
      FoundIfIn(body, '-');
      var bounds := ParseBounds(body, lo, hi).value;
      RangeSpans(body, lo, hi, IndexOf(body, '-'), bounds.0, bounds.1);
    }
  }

  lemma StepsIsParsed(chunk: string, body: string, step: int)
    requires Steps(chunk, body, step)
    ensures ParseStep(chunk) == Some(step) && chunk[..IndexOf(chunk, '/')] == body
  {
    if chunk == body && step == 1 {
      FoundIfIn(body, '/');
      assert chunk[..|chunk|] == chunk;
    } else {
      var k :| chunk == body + ("/" + k) && Atoi(k) == Some(step) && step > 0;
      Around(body, '/', k);
    }
  }

  lemma ParsedSteps(chunk: string)
    requires ParseStep(chunk).Some?
    ensures Steps(chunk, chunk[..IndexOf(chunk, '/')], ParseStep(chunk).value)
  {
    var i := IndexOf(chunk, '/');
    if i == |chunk| {
      assert chunk[..i] == chunk;
    } else {
      CutAt(chunk, i);
    }
  }

  /** A text that means something is read as that, */
  lemma MeantIsParsed(chunk: string, lo: int, hi: int, c: Chunk)
    requires Means(chunk, lo, hi, c)
    ensures ParseChunk(chunk, lo, hi) == Some(c)
  {
    var body :| Steps(chunk, body, c.step) && Spans(body, lo, hi, c.start, c.end);
    StepsIsParsed(chunk, body, c.step);
    SpansIsParsed(body, lo, hi, c.start, c.end);
  }

  /** and what is read is meant. */
  lemma ParsedIsMeant(chunk: string, lo: int, hi: int)
    requires ParseChunk(chunk, lo, hi).Some?
    ensures Means(chunk, lo, hi, ParseChunk(chunk, lo, hi).value)
  {
    ParsedSteps(chunk);
    ParsedSpans(chunk[..IndexOf(chunk, '/')], lo, hi);
  }

  /** The reading of a chunk is what its text means, and nothing if it means nothing. */
  lemma ParsesWhatItMeans(chunk: string, lo: int, hi: int, c: Chunk)
    ensures ParseChunk(chunk, lo, hi) == Some(c) <==> Means(chunk, lo, hi, c)
  {
    if Means(chunk, lo, hi, c) {
      MeantIsParsed(chunk, lo, hi, c);
    } else if ParseChunk(chunk, lo, hi) == Some(c) {
      ParsedIsMeant(chunk, lo, hi);
    }
  }

  /** Some piece of the field, between its commas, asks for the value. */
  ghost predicate AsksFor(f: string, lo: int, hi: int, v: int)
  {
    exists piece, c :: piece in Split(f, ',') && Means(piece, lo, hi, c) && AsksIn(c, v)
  }

  predicate AsksIn(c: Chunk, v: int) { c.step > 0 && c.start <= v <= c.end && OnGrid(c.start, v, c.step) }

  /** No step of the field takes a value past 2^63. */
  ghost predicate NoWrap(f: string, lo: int, hi: int)
  {
    forall piece, c :: piece in Split(f, ',') && Means(piece, lo, hi, c) ==> c.start + c.step <= MAX_INT64
  }

  ghost predicate MeansSomething(piece: string, lo: int, hi: int) { exists c :: Means(piece, lo, hi, c) }

  lemma ParsesIffMeaning(piece: string, lo: int, hi: int)
    ensures ParseChunk(piece, lo, hi).Some? <==> MeansSomething(piece, lo, hi)
  {
    if ParseChunk(piece, lo, hi).Some? {
      ParsedIsMeant(piece, lo, hi);
    }
    if c :| Means(piece, lo, hi, c) {
      MeantIsParsed(piece, lo, hi, c);
    }
  }

  lemma DocumentedIsAsked(f: string, lo: int, hi: int, v: int, piece: string, c: Chunk)
    requires piece in Split(f, ',') && Means(piece, lo, hi, c) && c.step >= 1 && Documents(c, v)
    ensures AsksFor(f, lo, hi, v)
  {
    assert AsksIn(c, v);
  }

  lemma AskedIsDocumented(f: string, lo: int, hi: int, v: int) returns (piece: string)
    requires AsksFor(f, lo, hi, v)
    ensures piece in Split(f, ',') && ParseChunk(piece, lo, hi).Some? && Documents(ParseChunk(piece, lo, hi).value, v)
  {
    var c;
    piece, c :| piece in Split(f, ',') && Means(piece, lo, hi, c) && AsksIn(c, v);
    MeantIsParsed(piece, lo, hi, c);
  }

  lemma NoWrapIff(f: string, lo: int, hi: int)
    requires forall piece :: piece in Split(f, ',') ==> ParseChunk(piece, lo, hi).Some?
    ensures NoWrap(f, lo, hi) <==> forall piece :: piece in Split(f, ',') ==>
              ParseChunk(piece, lo, hi).value.start + ParseChunk(piece, lo, hi).value.step <= MAX_INT64
  {
    forall piece | piece in Split(f, ',') ensures Means(piece, lo, hi, ParseChunk(piece, lo, hi).value) {
      ParsedIsMeant(piece, lo, hi);
    }
    forall piece, c | piece in Split(f, ',') && Means(piece, lo, hi, c) ensures c == ParseChunk(piece, lo, hi).value {
      MeantIsParsed(piece, lo, hi, c);
    }
  }

  /** The main result about fields, from their text: a field parses iff each of its
      pieces means something, */
  lemma FieldParsesIff(f: string, lo: int, hi: int)
    requires 0 <= lo <= hi < SMALL
    ensures FieldSet(f, lo, hi).Some? <==> forall piece :: piece in Split(f, ',') ==> MeansSomething(piece, lo, hi)
  {
    ParsesIffChunksDo(Split(f, ','), lo, hi);
    forall piece | piece in Split(f, ',')
      ensures ParseChunk(piece, lo, hi).Some? <==> MeansSomething(piece, lo, hi)
    {
      ParsesIffMeaning(piece, lo, hi);
    }
  }

  /** and holds exactly the values some piece asks for iff no step wraps. */
  lemma FieldReads(f: string, lo: int, hi: int)
    requires 0 <= lo <= hi < SMALL && FieldSet(f, lo, hi).Some?
    ensures (forall v :: v in FieldSet(f, lo, hi).value <==> AsksFor(f, lo, hi, v)) <==> NoWrap(f, lo, hi)
  {
    var pieces := Split(f, ',');
    FieldMeaning(pieces, lo, hi);
    NoWrapIff(f, lo, hi);
    forall v ensures AsksFor(f, lo, hi, v) <==> exists c :: c in pieces && Documents(ParseChunk(c, lo, hi).value, v) {
      if AsksFor(f, lo, hi, v) {
        var c := AskedIsDocumented(f, lo, hi, v);
      }
      if c :| c in pieces && Documents(ParseChunk(c, lo, hi).value, v) {
        ParsedIsMeant(c, lo, hi);
        DocumentedIsAsked(f, lo, hi, v, c, ParseChunk(c, lo, hi).value);
      }
    }
  }

  // ---------------------------------------------------- the forms of a field

  predicate Bare(t: string) { ',' !in t && '/' !in t && '-' !in t }

  lemma OneChunk(chunk: string, lo: int, hi: int, c: Chunk)
    requires 0 <= lo <= hi < SMALL && ParseChunk(chunk, lo, hi) == Some(c)
    ensures ParseChunks([chunk], lo, hi) == Some(Stepped(c.start, c.end, c.step))
  {
    assert [chunk][..0] == [] && ParseChunks([], lo, hi) == Some({});
    assert {} + Stepped(c.start, c.end, c.step) == Stepped(c.start, c.end, c.step);
  }

  lemma SteppedIsAsked(c: Chunk)
    requires 0 <= c.start <= c.end < SMALL && 1 <= c.step <= MAX_INT64 && c.start + c.step <= MAX_INT64
    ensures forall v :: v in Stepped(c.start, c.end, c.step) <==> AsksIn(c, v)
  {
    SteppedIffNoWrap(c.start, c.end, c.step);
    forall v ensures v in EveryNth(c.start, c.end, c.step) <==> AsksIn(c, v) {}
  }

  /** A field of one piece, */
  lemma OnePiece(f: string, lo: int, hi: int, c: Chunk)
    requires 0 <= lo <= hi < SMALL && ',' !in f && Means(f, lo, hi, c) && c.start + c.step <= MAX_INT64
    ensures FieldSet(f, lo, hi).Some? && forall v :: v in FieldSet(f, lo, hi).value <==> AsksIn(c, v)
  {
    MeantIsParsed(f, lo, hi, c);
    OneChunk(f, lo, hi, c);
    SteppedIsAsked(c);
  }

  /** a number, asks for itself, */
  lemma NumberField(t: string, lo: int, hi: int, n: int)
    requires 0 <= lo <= n <= hi < SMALL && Bare(t) && t != "*" && Atoi(t) == Some(n)
    ensures FieldSet(t, lo, hi) == Some({n})
  {
    assert Steps(t, t, 1) && Spans(t, lo, hi, n, n);
    OnePiece(t, lo, hi, Chunk(n, n, 1));
    forall v ensures v in FieldSet(t, lo, hi).value <==> v == n {}
    assert FieldSet(t, lo, hi).value == {n};
  }

  /** a star for the whole range, */
  lemma StarField(lo: int, hi: int)
    requires 0 <= lo <= hi < SMALL
    ensures FieldSet("*", lo, hi).Some? && forall v :: v in FieldSet("*", lo, hi).value <==> lo <= v <= hi
  {
    assert Steps("*", "*", 1) && Spans("*", lo, hi, lo, hi);
    OnePiece("*", lo, hi, Chunk(lo, hi, 1));
    forall v ensures AsksIn(Chunk(lo, hi, 1), v) <==> lo <= v <= hi {}
  }

  /** a range for what lies in it, */
  lemma SpanField(s: string, t: string, lo: int, hi: int, a: int, b: int)
    requires 0 <= lo <= a <= b <= hi < SMALL && Bare(s) && Bare(t) && Atoi(s) == Some(a) && Atoi(t) == Some(b)
    ensures var f := s + ("-" + t);
            FieldSet(f, lo, hi).Some? && forall v :: v in FieldSet(f, lo, hi).value <==> a <= v <= b
  {
    var f := s + ("-" + t);
    assert Steps(f, f, 1) && Spans(f, lo, hi, a, b);
    OnePiece(f, lo, hi, Chunk(a, b, 1));
    forall v ensures AsksIn(Chunk(a, b, 1), v) <==> a <= v <= b {}
  }

  lemma NotInAround(c: char, s: string, mid: string, t: string)
    requires c !in s && c !in mid && c !in t
    ensures c !in s + (mid + t)
  {
  }

  lemma StepsAround(body: string, t: string, lo: int, hi: int, start: int, end: int, k: int)
    requires lo <= start <= end <= hi && Spans(body, lo, hi, start, end) && '/' !in body && Atoi(t) == Some(k) && 0 < k
    ensures Means(body + ("/" + t), lo, hi, Chunk(start, end, k))
  {
    assert Steps(body + ("/" + t), body, k);
  }

  /** and any of these with a step for every so many-th from the start. */
  lemma SteppedField(body: string, t: string, lo: int, hi: int, start: int, end: int, k: int)
    requires 0 <= lo <= start <= end <= hi < SMALL && Spans(body, lo, hi, start, end)
    requires ',' !in body && '/' !in body && ',' !in t && Atoi(t) == Some(k) && 0 < k && start + k <= MAX_INT64
    ensures var f := body + ("/" + t);
            && FieldSet(f, lo, hi).Some?
            && forall v :: v in FieldSet(f, lo, hi).value <==> AsksIn(Chunk(start, end, k), v)
  {
    var f := body + ("/" + t);
    NotInAround(',', body, "/", t);
    StepsAround(body, t, lo, hi, start, end, k);
    OnePiece(f, lo, hi, Chunk(start, end, k));
  }

  // --------------------------------------------------------- expressions

  datatype Expr = Expr(minutes: set<int>, hours: set<int>, doms: set<int>, months: set<int>, dows: set<int>, raw: string)

  function ParseExpr(s: string): Option<Expr>
  {
    var parts := Fields(TrimSpace(s));
    if |parts| != 5 then None
    else
      var a, b := FieldSet(parts[0], 0, 59), FieldSet(parts[1], 0, 23);
      var c, d, e := FieldSet(parts[2], 1, 31), FieldSet(parts[3], 1, 12), FieldSet(parts[4], 0, 6);
      if a.None? || b.None? || c.None? || d.None? || e.None? then None
      else Some(Expr(a.value, b.value, c.value, d.value, e.value, TrimSpace(s)))
  }

  const FIELD_RANGES: seq<(int, int)> := [(0, 59), (0, 23), (1, 31), (1, 12), (0, 6)]

  ghost predicate FieldParsed(parts: seq<string>, k: nat, parsed: Option<set<int>>)
    requires |parts| == 5 && k < 5
  {
    FieldSet(parts[k], FIELD_RANGES[k].0, FIELD_RANGES[k].1) == parsed
  }

  lemma FieldsParsed(parts: seq<string>, k: nat, parsed: Option<set<int>>)
    requires |parts| == 5 && k < 5 && FieldParsed(parts, k, parsed)
    ensures k == 0 ==> FieldSet(parts[0], 0, 59) == parsed
    ensures k == 1 ==> FieldSet(parts[1], 0, 23) == parsed
    ensures k == 2 ==> FieldSet(parts[2], 1, 31) == parsed
    ensures k == 3 ==> FieldSet(parts[3], 1, 12) == parsed
    ensures k == 4 ==> FieldSet(parts[4], 0, 6) == parsed
  {
  }

  /** The sets of the fields up to the first that has none. */
  method ParseFields(parts: seq<string>) returns (sets: seq<set<int>>)
    requires |parts| == 5
    ensures |sets| <= 5 && forall k :: 0 <= k < |sets| ==> FieldParsed(parts, k, Some(sets[k]))
    ensures |sets| < 5 ==> FieldParsed(parts, |sets|, None)
  {
    sets := [];
    for i := 0 to 5
      invariant |sets| == i && forall k :: 0 <= k < i ==> FieldParsed(parts, k, Some(sets[k]))
    {
      var set_ := ParseField(parts[i], FIELD_RANGES[i].0, FIELD_RANGES[i].1);
      assert FieldParsed(parts, i, set_);
      if set_.None? {
        return;
      }
      sets := sets + [set_.value];
    }
  }

  /** Parse */
  method Parse(s: string) returns (r: Option<Expr>)
    ensures r == ParseExpr(s)
    ensures var f := Fields(TrimSpace(s));
            r.Some? <==> |f| == 5 && FieldSet(f[0], 0, 59).Some? && FieldSet(f[1], 0, 23).Some?
                         && FieldSet(f[2], 1, 31).Some? && FieldSet(f[3], 1, 12).Some? && FieldSet(f[4], 0, 6).Some?
    ensures r.Some? ==>
              var e, f := r.value, Fields(TrimSpace(s));
              && FieldSet(f[0], 0, 59) == Some(e.minutes) && FieldSet(f[1], 0, 23) == Some(e.hours)
              && FieldSet(f[2], 1, 31) == Some(e.doms) && FieldSet(f[3], 1, 12) == Some(e.months)
              && FieldSet(f[4], 0, 6) == Some(e.dows)
  {
    var parts := Fields(TrimSpace(s));
    if |parts| != 5 {
      return None;
    }
    var sets := ParseFields(parts);
    if |sets| < 5 {
      FieldsParsed(parts, |sets|, None);
      return None;
    }
    FieldsParsed(parts, 0, Some(sets[0]));
    FieldsParsed(parts, 1, Some(sets[1]));
    FieldsParsed(parts, 2, Some(sets[2]));
    FieldsParsed(parts, 3, Some(sets[3]));
    FieldsParsed(parts, 4, Some(sets[4]));
    r := Some(Expr(sets[0], sets[1], sets[2], sets[3], sets[4], TrimSpace(s)));
  }
}
