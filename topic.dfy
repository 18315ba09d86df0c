/** The topic normaliser `normaliseTopic`: cleans the user's topic and derives
    its possessive form by the Odia genitive suffix ର. */
module Topic {
  import opened Whitespace

  /** The possessive suffix ର (U+0B30 ORIYA LETTER RA). */
  const Suffix: char := 'ର'

  /** The pair used when the cleaned topic is empty: "love" and "love's". */
  const DefaultTopic: string := "ପ୍ରେମ"
  const DefaultPossessive: string := "ପ୍ରେମର"

  datatype Normalised = Normalised(topic: string, possessive: string)

  /** `topic.endsWith("ର") ? topic : topic + "ର"`. */
  function Possessive(topic: string): (r: string)
    ensures |topic| <= |r| <= |topic| + 1 && r[..|topic|] == topic
    ensures r != [] && r[|r| - 1] == Suffix
    ensures r == topic <==> (topic != [] && topic[|topic| - 1] == Suffix)
  {
    if topic != [] && topic[|topic| - 1] == Suffix then topic else topic + [Suffix]
  }

  /** `input.trim().replace(/\s{2,}/g, " ")`: only runs of two or more white-space
      characters are collapsed, so a lone tab survives. */
  function CleanTopic(input: string): (r: string)
    ensures Trimmed(r) && NoDoubleSpace(r)
    ensures r == [] <==> AllSpace(input)
  {
    var t := Trim(input);
    ReplaceRunsShape(t, 2);
    ReplaceRuns(t, 2)
  }

  function NormaliseTopic(input: string): (r: Normalised)
    ensures AllSpace(input) ==> r == Normalised(DefaultTopic, DefaultPossessive)
    ensures !AllSpace(input) ==> r.topic == CleanTopic(input)
    ensures r.topic != [] && Trimmed(r.topic) && NoDoubleSpace(r.topic)
    ensures r.possessive == Possessive(r.topic)
  {
    var cleaned := CleanTopic(input);
    if cleaned == [] then
      DefaultPairFollowsRule();
      Normalised(DefaultTopic, DefaultPossessive)
    else
      Normalised(cleaned, Possessive(cleaned))
  }

  /** The default pair is itself a clean topic and its possessive. */
  lemma DefaultPairFollowsRule()
    ensures DefaultTopic != [] && Trimmed(DefaultTopic) && NoDoubleSpace(DefaultTopic)
    ensures Possessive(DefaultTopic) == DefaultPossessive
  {
    assert forall i :: 0 <= i < |DefaultTopic| ==> !IsSpace(DefaultTopic[i]);
  }

  /** The possessive of a clean topic starts and ends visibly. */
  lemma PossessiveTrimmed(topic: string)
    requires topic != [] && Trimmed(topic)
    ensures Trimmed(Possessive(topic))
  {
    var p := Possessive(topic);
    assert p[0] == topic[0];
    assert !IsSpace(Suffix);
  }

  /** A possessive is never suffixed twice. */
  lemma PossessiveOnce(topic: string)
    ensures Possessive(Possessive(topic)) == Possessive(topic)
  {}

  /** Normalising changes only white space: a topic with something visible in it
      keeps exactly its visible characters, in order. */
  lemma NormaliseKeepsVisible(input: string)
    requires !AllSpace(input)
    ensures Visible(NormaliseTopic(input).topic) == Visible(input)
  {
    TrimKeepsVisible(input);
    ReplaceRunsKeepsVisible(Trim(input), 2);
  }

  /** A topic that is already trimmed and has no white-space pair is kept as it is
      (single tabs and other lone white-space characters included). */
  lemma NormaliseFixpoint(input: string)
    requires input != [] && Trimmed(input) && NoDoubleSpace(input)
    ensures NormaliseTopic(input) == Normalised(input, Possessive(input))
  {
    TrimFixpoint(input);
    ReplaceRunsFixpoint(input, 2);
  }

  /** Normalising a normalised topic gives the same pair again. */
  lemma NormaliseIdempotent(input: string)
    ensures NormaliseTopic(NormaliseTopic(input).topic) == NormaliseTopic(input)
  {
    var r := NormaliseTopic(input);
    NormaliseFixpoint(r.topic);
  }
}
