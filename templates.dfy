/** The phrase banks and line templates, and the random choices one attempt makes
    among them. `Math.random` is replaced by an explicit `Draw`: whether a refrain is
    chosen (`Math.random() < 0.25`), which template, and the index each `randomOf`
    call inside the template yields, in evaluation order. */
module Templates {
  import opened Whitespace

  const Invocations: seq<string> := [
    "ସ୍ନେହର ଲହରୀରେ",
    "ଚନ୍ଦନୀ ଆଲୋକରେ",
    "ପବନର ଶିତଳ ସ୍ପର୍ଶରେ",
    "ଗୋଧୂଳି ରଙ୍ଗରେ",
    "ବର୍ଷା ତାଳରେ",
    "ପ୍ରଭାତୀ କହକହରେ"
  ]

  const Actions: seq<string> := [
    "ଝରେ",
    "ଝୁମେ",
    "ଗାଉଛି",
    "ମିଶେ",
    "ଜାଗେ",
    "ନାଚେ"
  ]

  const Destinations: seq<string> := [
    "ମୋର ହୃଦୟରେ",
    "ତୁମ ଆଖିରେ",
    "ସାଗର ତୀରେ",
    "ପ୍ରତିଧ୍ଵନି ଭିତରେ",
    "ରଙ୍ଗିନ ଆକାଶତଳେ",
    "ଶାନ୍ତ ସନ୍ଧ୍ୟାରେ"
  ]

  const Imagery: seq<string> := [
    "ବାଂଶୀର ମନ୍ଥର ଧ୍ୱନି",
    "ଜହ୍ନରୀ ଆଲୋକ",
    "ଚୁଆଣିଅଛି ଦିଆରା ପବନ",
    "ମାତାଳିଥିବା ଜୟଦେବ ରାଗ",
    "ପଦ୍ମ ପତ୍ରର ଗନ୍ଧ",
    "ନିଳାକାଶ ଭିତରେ ଶୁଭ୍ର ମେଘ"
  ]

  const Textures: seq<string> := [
    "ସ୍ନିଗ୍ଧ ସ୍ପର୍ଶ",
    "ଧଡ଼କନ",
    "ଭାବନା",
    "ମାୟା",
    "ପ୍ରେମର ଆଲୋକ",
    "ସ୍ଵପ୍ନ ତରଙ୍ଗ"
  ]

  const Pulses: seq<string> := [
    "ସରଗମ ତାଳ",
    "ମୃଦୁଙ୍ଗର ଘୋଷ",
    "ଢୋଲର ରିଦମ୍",
    "ଘୁଞ୍ଚିଘୁଞ୍ଚି ନାଚୁଥିବା ସୁର",
    "ତାବଲା ଚାପର",
    "ଗିଟାରର ମିଷ୍ଟି ରିଫ"
  ]

  const Whispers: seq<string> := [
    "ମିଷ୍ଟି କଥା କହେ",
    "ଆଶାର ଗଳ୍ପ ଗାଏ",
    "ଆଲୋକର ଚାୟା ବୁନେ",
    "ସ୍ପନ୍ଦନର ନାଁ ଦିଏ",
    "ଦୂର ଚିନ୍ତାକୁ ନିଆଁ ଦିଏ",
    "ପ୍ରେମର ପ୍ରସ୍ଥାନ ଲେଖେ"
  ]

  /** For each general template, the banks its `randomOf` calls sample, in order. */
  const TemplateBanks: seq<seq<seq<string>>> := [
    [Invocations, Actions, Destinations],
    [Imagery, Whispers],
    [Textures],
    [Pulses],
    [Invocations],
    [],
    [],
    [Imagery]
  ]

  const RefrainCount: nat := 3

  /** The text around the possessive in refrain `i`. */
  function RefrainFrame(i: nat, topic: string): (string, string)
    requires i < RefrainCount
  {
    match i
    case 0 => ("", " ସ୍ପନ୍ଦନ, ମୋ ସୁର, ତୁମ ସ୍ଵପ୍ନର ସାଙ୍ଗେ")
    case 1 => ("ହେ " + topic + ", ", " ସ୍ପନ୍ଦନେ ରହ ତୁମେ")
    case _ => ("", " ମେଳରେ ମିଳିଲା ମୋର ନୂତନ ପଥ")
  }

  /** The refrain templates: short, topic-anchored, no random fragments; every
      refrain writes the possessive into its line. */
  function Refrain(i: nat, topic: string, possessive: string): (r: string)
    requires i < RefrainCount
    ensures Occurs(possessive, r)
  {
    var (before, after) := RefrainFrame(i, topic);
    OccursInMiddle(before, possessive, after);
    before + possessive + after
  }

  /** The text around the possessive in general template `i`, given the fragments
      `f` drawn from `TemplateBanks[i]`. */
  function GeneralFrame(i: nat, topic: string, f: seq<string>): (string, string)
    requires i < |TemplateBanks| && |f| == |TemplateBanks[i]|
  {
    match i
    case 0 => (f[0] + " ", " ସ୍ପନ୍ଦନ " + f[1] + " " + f[2])
    case 1 => (f[0] + " " + f[1] + " ", " କଥା")
    case 2 => (topic + " ସୁରରେ ", " " + f[0] + " ଲୁଚିଛି")
    case 3 => (f[0] + " ସହିତ ", " ଟିପ୍ତାପ୍ ସ୍ଵର")
    case 4 => (f[0] + " " + topic + " ସ୍ଵପ୍ନକୁ ପ୍ରେରେଇ, ", " ଦୀପ ଜ୍ୱାଳେ")
    case 5 => ("ମାଟିର ଗନ୍ଧରେ ", " ଶିଶୁ ସ୍ମିତା ଜାଗେ")
    case 6 => (topic + " ଆଲୋକରେ ", " ମନ ଝୁଲାଏ ଗୀତ")
    case _ => (f[0] + " ମଧ୍ୟରେ " + topic + " ଆଶା ଡାକେ, ", " ପଥ ଜାଗ୍ରତ")
  }

  /** The general templates; every one writes the possessive into its line,
      whatever fragments are drawn. */
  function General(i: nat, topic: string, possessive: string, f: seq<string>): (r: string)
    requires i < |TemplateBanks| && |f| == |TemplateBanks[i]|
    ensures Occurs(possessive, r)
  {
    var (before, after) := GeneralFrame(i, topic, f);
    OccursInMiddle(before, possessive, after);
    before + possessive + after
  }

  /** The random choices of one attempt. */
  datatype Draw = Draw(refrain: bool, template: nat, picks: seq<nat>)

  /** Every index a draw holds is one `Math.floor(Math.random() * n)` can yield:
      the template index is below the number of templates of the chosen kind, and
      there is one pick per `randomOf` call of that template, below its bank's size. */
  predicate WellFormed(d: Draw) {
    if d.refrain then d.template < RefrainCount && d.picks == []
    else
      d.template < |TemplateBanks| && |d.picks| == |TemplateBanks[d.template]|
      && forall k :: 0 <= k < |d.picks| ==> d.picks[k] < |TemplateBanks[d.template][k]|
  }

  type ValidDraw = d: Draw | WellFormed(d) witness Draw(true, 0, [])

  /** `randomOf(items)` once its random index `i` is known. */
  function RandomOf<T>(items: seq<T>, i: nat): (r: T)
    requires i < |items|
    ensures r in items
  {
    items[i]
  }

  /** The fragments a general template's `randomOf` calls return, in order. */
  function Fragments(d: ValidDraw): (f: seq<string>)
    requires !d.refrain
    ensures |f| == |TemplateBanks[d.template]|
    ensures forall k :: 0 <= k < |f| ==> f[k] in TemplateBanks[d.template][k]
  {
    seq(|d.picks|, k requires 0 <= k < |d.picks| => RandomOf(TemplateBanks[d.template][k], d.picks[k]))
  }

  /** The raw line one attempt renders, before its white space is cleaned. */
  function Render(topic: string, possessive: string, d: ValidDraw): (r: string)
    ensures Occurs(possessive, r)
  {
    if d.refrain then Refrain(d.template, topic, possessive)
    else General(d.template, topic, possessive, Fragments(d))
  }

  lemma OccursInMiddle(x: string, p: string, y: string)
    ensures OccursAt(p, x + p + y, |x|)
  {
    assert (x + p + y)[|x|..|x| + |p|] == p;
  }
}
