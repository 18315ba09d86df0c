/** The generation core of the `POST` handler: the length-category lookup, the
    bounded, de-duplicating collection loop, and the handler body that ties them to
    the topic normaliser. */
module Generation {
  import opened Whitespace
  import opened Topic
  import opened Templates

  /** The `length` field of the request body: a string, or any other JSON value. */
  datatype LengthField = Text(s: string) | NotText

  /** `LENGTH_MAP`. */
  const LengthMap: map<string, nat> := map["short" := 8, "medium" := 12, "long" := 16]

  /** `typeof length === "string" && LENGTH_MAP[length] ? LENGTH_MAP[length] : LENGTH_MAP.medium` */
  function TargetLines(length: LengthField): (n: nat)
    ensures n == 8 <==> length == Text("short")
    ensures n == 16 <==> length == Text("long")
    ensures n == 12 <==> (length != Text("short") && length != Text("long"))
  {
    if length.Text? && length.s in LengthMap && LengthMap[length.s] != 0 then LengthMap[length.s]
    else LengthMap["medium"]
  }

  /** Names every object literal inherits from `Object.prototype`: looking one of
      them up in `LENGTH_MAP` yields a function or an object, not a count. */
  const InheritedNames: set<string> := {
    "constructor", "__proto__", "toString", "toLocaleString", "valueOf",
    "hasOwnProperty", "isPrototypeOf", "propertyIsEnumerable",
    "__defineGetter__", "__defineSetter__", "__lookupGetter__", "__lookupSetter__"
  }

  /** The value `targetLines` takes in the handler as written: a count, or the
      inherited function or object, which compares with numbers as NaN. */
  datatype Target = Count(n: nat) | NonNumeric

  /** The lookup as written, where `LENGTH_MAP[length]` also sees inherited names. */
  function TargetAsWritten(length: LengthField): (t: Target)
    ensures t.NonNumeric? <==> (length.Text? && length.s in InheritedNames)
    ensures t.Count? ==> t.n == TargetLines(length)
  {
    if length.Text? && length.s in LengthMap && LengthMap[length.s] != 0 then Count(LengthMap[length.s])
    else if length.Text? && length.s in InheritedNames then NonNumeric
    else Count(LengthMap["medium"])
  }

  /** The loop guard as written: both comparisons are false against a non-numeric
      bound. */
  predicate GuardAsWritten(found: nat, safetyCounter: nat, t: Target) {
    t.Count? && found < t.n && safetyCounter < t.n * 10
  }

  /** A `length` naming an inherited property fails the loop guard at its first
      test, so the handler as written answers with no lines, where an unrecognised
      category was meant to behave as `"medium"`. */
  lemma InheritedLengthGivesNoLines(name: string)
    requires name in InheritedNames
    ensures !GuardAsWritten(0, 0, TargetAsWritten(Text(name)))
    ensures TargetLines(Text(name)) == 12 && GuardAsWritten(0, 0, Count(TargetLines(Text(name))))
  {}

  predicate NoDuplicates(s: seq<string>) {
    forall i, j :: 0 <= i < j < |s| ==> s[i] != s[j]
  }

  /** First-occurrence de-duplication: the elements of `s`, each kept where it first
      appears, in the order of `s`. */
  function Dedup(s: seq<string>): (r: seq<string>)
    ensures NoDuplicates(r)
    ensures |r| <= |s|
  {
    if s == [] then []
    else
      var prev := Dedup(s[..|s| - 1]);
      if s[|s| - 1] in prev then prev else prev + [s[|s| - 1]]
  }

  /** De-duplication keeps exactly the lines of its input. */
  lemma {:induction false} DedupSameElements(s: seq<string>)
    ensures forall x :: x in Dedup(s) <==> x in s
  {
    if s != [] {
      var init := s[..|s| - 1];
      DedupSameElements(init);
      assert s == init + [s[|s| - 1]];
    }
  }

  /** `Dedup` of a stream extended by one element: the element is appended when it
      is new and dropped when it was seen before. */
  lemma DedupSnoc(s: seq<string>, x: string)
    ensures Dedup(s + [x]) == if x in Dedup(s) then Dedup(s) else Dedup(s) + [x]
  {
    assert (s + [x])[..|s|] == s;
  }

  /** The index at which `x` first appears in `s`. */
  function FirstIndex(s: seq<string>, x: string): (k: nat)
    requires x in s
    ensures k < |s| && s[k] == x
    ensures forall j :: 0 <= j < k ==> s[j] != x
  {
    if s[0] == x then 0 else 1 + FirstIndex(s[1..], x)
  }

  lemma FirstIndexExtend(s: seq<string>, x: string, y: string)
    requires y in s
    ensures y in s + [x] && FirstIndex(s + [x], y) == FirstIndex(s, y)
  {
    assert (s + [x])[FirstIndex(s, y)] == y;
    assert forall j :: 0 <= j < |s| ==> (s + [x])[j] == s[j];
  }

  /** Every element of `r` occurs in `s`, and `r` lists them in the order of their
      first occurrence in `s`. */
  predicate InFirstOccurrenceOrder(r: seq<string>, s: seq<string>) {
    (forall x :: x in r ==> x in s) &&
    forall i, j :: 0 <= i < j < |r| ==> FirstIndex(s, r[i]) < FirstIndex(s, r[j])
  }

  /** Extending `s` keeps first-occurrence order, since no first index moves. */
  lemma OrderKeptBySnoc(r: seq<string>, s: seq<string>, x: string)
    requires InFirstOccurrenceOrder(r, s)
    ensures InFirstOccurrenceOrder(r, s + [x])
  {
    forall y | y in s ensures y in s + [x] && FirstIndex(s + [x], y) == FirstIndex(s, y) {
      FirstIndexExtend(s, x, y);
    }
  }

  /** A new element goes last: its first index is the end of `s`. */
  lemma OrderAppendNew(r: seq<string>, s: seq<string>, x: string)
    requires InFirstOccurrenceOrder(r, s)
    requires x !in s
    ensures InFirstOccurrenceOrder(r + [x], s + [x])
  {
    var s', r' := s + [x], r + [x];
    OrderKeptBySnoc(r, s, x);
    assert FirstIndex(s', x) == |s| by {
      assert s'[|s|] == x;
      assert forall k :: 0 <= k < |s| ==> s'[k] == s[k];
    }
    forall i, j | 0 <= i < j < |r'| ensures FirstIndex(s', r'[i]) < FirstIndex(s', r'[j]) {
      assert r'[i] == r[i] && r[i] in s;
      if j < |r| {
        assert r'[j] == r[j];
      }
    }
  }

  lemma DedupOrderSnoc(s: seq<string>, x: string)
    requires InFirstOccurrenceOrder(Dedup(s), s)
    ensures InFirstOccurrenceOrder(Dedup(s + [x]), s + [x])
  {
    DedupSnoc(s, x);
    if x in Dedup(s) {
      OrderKeptBySnoc(Dedup(s), s, x);
    } else {
      DedupSameElements(s);
      OrderAppendNew(Dedup(s), s, x);
    }
  }

  /** `Dedup` keeps the order of first appearance. */
  lemma {:induction false} DedupInFirstOccurrenceOrder(s: seq<string>)
    ensures InFirstOccurrenceOrder(Dedup(s), s)
  {
    if s != [] {
      var init, x := s[..|s| - 1], s[|s| - 1];
      DedupInFirstOccurrenceOrder(init);
      DedupOrderSnoc(init, x);
      assert s == init + [x];
    }
  }

  /** A stream that repeats one element yields that element once. */
  lemma {:induction false} DedupConstant(s: seq<string>, c: string)
    requires s != [] && forall k :: 0 <= k < |s| ==> s[k] == c
    ensures Dedup(s) == [c]
  {
    if |s| > 1 {
      DedupConstant(s[..|s| - 1], c);
    }
  }

  /** The line attempt `k` produces: the template chosen by draw `oracle(k)`,
      rendered and cleaned up. Every such line is clean, and when the possessive
      starts and ends visibly the line contains it with its white-space runs squashed. */
  function LineOf(topic: string, possessive: string, oracle: nat -> ValidDraw): (lineOf: nat -> string)
    ensures forall k: nat :: Trimmed(lineOf(k)) && NoDoubleSpace(lineOf(k)) && OnlyPlainSpaces(lineOf(k))
    ensures possessive != [] && Trimmed(possessive) ==>
      forall k: nat :: Occurs(ReplaceRuns(possessive, 1), lineOf(k))
  {
    var lineOf := (k: nat) => CleanLine(Render(topic, possessive, oracle(k)));
    assert forall k: nat :: Trimmed(lineOf(k)) && NoDoubleSpace(lineOf(k)) && OnlyPlainSpaces(lineOf(k)) by {
      forall k: nat ensures Trimmed(lineOf(k)) && NoDoubleSpace(lineOf(k)) && OnlyPlainSpaces(lineOf(k)) {
        assert lineOf(k) == CleanLine(Render(topic, possessive, oracle(k)));
      }
    }
    assert possessive != [] && Trimmed(possessive) ==>
      forall k: nat :: Occurs(ReplaceRuns(possessive, 1), lineOf(k)) by {
      if possessive != [] && Trimmed(possessive) {
        forall k: nat ensures Occurs(ReplaceRuns(possessive, 1), lineOf(k)) {
          CleanLineKeeps(possessive, Render(topic, possessive, oracle(k)));
        }
      }
    }
    lineOf
  }

  /** The candidate lines of the first `n` attempts, in generation order. */
  function Attempts(lineOf: nat -> string, n: nat): (r: seq<string>)
    ensures |r| == n
  {
    if n == 0 then [] else Attempts(lineOf, n - 1) + [lineOf(n - 1)]
  }

  /** Attempt `k` holds the line produced at step `k`, whatever the later steps. */
  lemma {:induction false} AttemptsAt(lineOf: nat -> string, n: nat, k: nat)
    requires k < n
    ensures Attempts(lineOf, n)[k] == lineOf(k)
  {
    if k < n - 1 {
      AttemptsAt(lineOf, n - 1, k);
    }
  }

  lemma AttemptsSnoc(lineOf: nat -> string, n: nat)
    ensures Attempts(lineOf, n + 1) == Attempts(lineOf, n) + [lineOf(n)]
  {}

  /** The set of the elements of `s`. */
  function Elements(s: seq<string>): set<string> {
    if s == [] then {} else Elements(s[..|s| - 1]) + {s[|s| - 1]}
  }

  lemma {:induction false} ElementsHas(s: seq<string>, x: string)
    ensures x in Elements(s) <==> x in s
  {
    if s != [] {
      var init := s[..|s| - 1];
      ElementsHas(init, x);
      assert s == init + [s[|s| - 1]];
    }
  }

  lemma ElementsSnoc(s: seq<string>, x: string)
    ensures Elements(s + [x]) == Elements(s) + {x}
  {
    assert (s + [x])[..|s|] == s;
  }

  /** After `n` attempts fewer than `targetLines` distinct lines were found. */
  predicate Unfilled(lineOf: nat -> string, targetLines: nat, n: nat) {
    |Dedup(Attempts(lineOf, n))| < targetLines
  }

  /** One attempt of the collection loop, on the specification side: the new
      line is appended when unseen, and the attempt count that was not yet full
      joins the unfilled ones. */
  lemma CollectStep(lineOf: nat -> string, targetLines: nat, k: nat)
    requires forall n :: 0 <= n < k ==> Unfilled(lineOf, targetLines, n)
    requires Unfilled(lineOf, targetLines, k)
    ensures forall n :: 0 <= n < k + 1 ==> Unfilled(lineOf, targetLines, n)
    ensures Dedup(Attempts(lineOf, k + 1)) ==
      if lineOf(k) in Dedup(Attempts(lineOf, k)) then Dedup(Attempts(lineOf, k))
      else Dedup(Attempts(lineOf, k)) + [lineOf(k)]
  {
    AttemptsSnoc(lineOf, k);
    DedupSnoc(Attempts(lineOf, k), lineOf(k));
  }

  /** The collection loop of `POST`: attempt `k` (counting from 0) produces the
      line `lineOf(k)`, which is kept when it was not seen before. `attempts` is the
      final value of the loop's safety counter: the loop stops at the first attempt
      count that fills the lyric, or at the safety bound. */
  method Collect(targetLines: nat, lineOf: nat -> string) returns (lines: seq<string>, ghost attempts: nat)
    ensures attempts <= targetLines * 10
    ensures lines == Dedup(Attempts(lineOf, attempts))
    ensures |lines| <= targetLines
    ensures attempts < targetLines * 10 ==> |lines| == targetLines
    ensures forall n :: 0 <= n < attempts ==> Unfilled(lineOf, targetLines, n)
    ensures NoDuplicates(lines)
  {
    var lyricsSet: set<string> := {};
    lines := [];
    var safetyCounter := 0;
    while |lines| < targetLines && safetyCounter < targetLines * 10
      invariant safetyCounter <= targetLines * 10
      invariant lines == Dedup(Attempts(lineOf, safetyCounter))
      invariant lyricsSet == Elements(lines)
      invariant |lines| <= targetLines
      invariant forall n :: 0 <= n < safetyCounter ==> Unfilled(lineOf, targetLines, n)
      decreases targetLines * 10 - safetyCounter
    {
      CollectStep(lineOf, targetLines, safetyCounter);
      var line := lineOf(safetyCounter);
      safetyCounter := safetyCounter + 1;
      ElementsHas(lines, line);
      ElementsSnoc(lines, line);
      if line !in lyricsSet {
        lyricsSet := lyricsSet + {line};
        lines := lines + [line];
      }
    }
    attempts := safetyCounter;
  }

  /** With a draw that never varies every attempt renders the same line, so exactly
      one line is collected however many attempts are made. */
  lemma FixedDrawGivesOneLine(topic: string, possessive: string, oracle: nat -> ValidDraw, d: ValidDraw, n: nat)
    requires forall k :: oracle(k) == d
    requires n > 0
    ensures Dedup(Attempts(LineOf(topic, possessive, oracle), n)) == [CleanLine(Render(topic, possessive, d))]
  {
    var a := Attempts(LineOf(topic, possessive, oracle), n);
    forall k | 0 <= k < n ensures a[k] == CleanLine(Render(topic, possessive, d)) {
      AttemptsAt(LineOf(topic, possessive, oracle), n, k);
      assert oracle(k) == d;
    }
    DedupConstant(a, CleanLine(Render(topic, possessive, d)));
  }

  /** Every attempt's line is clean and contains the possessive, its white-space
      runs squashed, when the possessive starts and ends visibly. */
  lemma AttemptsAreCleanAndKeepPossessive(topic: string, possessive: string, oracle: nat -> ValidDraw, n: nat)
    requires possessive != [] && Trimmed(possessive)
    ensures forall x :: x in Attempts(LineOf(topic, possessive, oracle), n) ==>
      Trimmed(x) && NoDoubleSpace(x) && OnlyPlainSpaces(x) && Occurs(ReplaceRuns(possessive, 1), x)
  {
    var a := Attempts(LineOf(topic, possessive, oracle), n);
    forall k | 0 <= k < n
      ensures Trimmed(a[k]) && NoDoubleSpace(a[k]) && OnlyPlainSpaces(a[k])
      ensures Occurs(ReplaceRuns(possessive, 1), a[k])
    {
      AttemptsAt(LineOf(topic, possessive, oracle), n, k);
    }
  }

  /** The handler body between reading the request and building the response:
      `topic` is `String(topic ?? "")` and `length` the body's `length` field. */
  method Lyrics(topic: string, length: LengthField, oracle: nat -> ValidDraw)
    returns (lines: seq<string>, ghost attempts: nat)
    ensures attempts <= TargetLines(length) * 10
    ensures lines == Dedup(Attempts(LineOf(NormaliseTopic(topic).topic, NormaliseTopic(topic).possessive, oracle), attempts))
    ensures attempts < TargetLines(length) * 10 ==> |lines| == TargetLines(length)
    ensures 1 <= |lines| <= TargetLines(length)
    ensures NoDuplicates(lines)
    ensures forall i :: 0 <= i < |lines| ==>
      lines[i] != [] && Trimmed(lines[i]) && NoDoubleSpace(lines[i]) && OnlyPlainSpaces(lines[i])
    ensures forall i :: 0 <= i < |lines| ==>
      Occurs(ReplaceRuns(NormaliseTopic(topic).possessive, 1), lines[i])
  {
    var targetLines := TargetLines(length);
    var normalised := NormaliseTopic(topic);
    var lineOf := LineOf(normalised.topic, normalised.possessive, oracle);
    lines, attempts := Collect(targetLines, lineOf);
    ghost var all := Attempts(lineOf, attempts);
    DedupSameElements(all);
    assert attempts > 0 && all[0] in lines;
    PossessiveTrimmed(normalised.topic);
    AttemptsAreCleanAndKeepPossessive(normalised.topic, normalised.possessive, oracle, attempts);
    ReplaceRunsShape(normalised.possessive, 1);
    forall i | 0 <= i < |lines|
      ensures lines[i] != [] && Trimmed(lines[i]) && NoDoubleSpace(lines[i]) && OnlyPlainSpaces(lines[i])
      ensures Occurs(ReplaceRuns(NormaliseTopic(topic).possessive, 1), lines[i])
    {
      assert lines[i] in all;
      var q := ReplaceRuns(normalised.possessive, 1);
      var k: nat :| k <= |lines[i]| && OccursAt(q, lines[i], k);
    }
  }

  /** A lone tab inside the topic survives normalisation. */
  lemma TabKeptInTopic()
    ensures NormaliseTopic("a\tb").topic == "a\tb"
  {
    var s := "a\tb";
    assert !IsSpace(s[0]) && IsSpace(s[1]) && !IsSpace(s[2]);
    NormaliseFixpoint(s);
  }

  /** A lone tab inside a generated line is replaced by a space. */
  lemma TabReplacedInLine()
    ensures CleanLine("a\tb") == "a b"
  {
    var s := "a\tb";
    assert !IsSpace(s[0]) && IsSpace(s[1]) && !IsSpace(s[2]);
    LeadingSpacesIs(s[1..], 1);
    assert ReplaceRuns(s[1..], 1) == " b";
    assert ReplaceRuns(s, 1) == "a b";
    TrimFixpoint("a b");
  }
}
