/** The tolerant extraction of a JSON text from a model answer that `generateScenePrompts` and
    `generateCharacterDNA` (services/geminiService.ts) apply before `JSON.parse`. The source uses
    the regular expression with two alternatives, a `json`-fenced block (first capture) or a
    brace-delimited span (second capture); here the match is computed by plain string search. */
module JsonExtract {
  import opened Wrappers
  import opened Text
  import opened Search

  const FenceOpen := "```json"
  const FenceClose := "```"

  /** The first index at or after `from` where `sub` occurs. */
  function IndexFrom(s: string, sub: string, from: nat): (r: Option<nat>)
    ensures r.Some? ==> from <= r.value && OccursAt(s, sub, r.value)
    ensures r.Some? ==> forall j | from <= j < r.value :: !OccursAt(s, sub, j)
    ensures r.None? ==> forall j | from <= j :: !OccursAt(s, sub, j)
    decreases |s| - from
  {
    if from + |sub| > |s| then None
    else if OccursAt(s, sub, from) then Some(from)
    else IndexFrom(s, sub, from + 1)
  }

  /** The index of the last `c` in `s`. */
  function LastIndexOf(s: string, c: char): (r: Option<nat>)
    ensures r.Some? ==> r.value < |s| && s[r.value] == c
    ensures r.Some? ==> forall j | r.value < j < |s| :: s[j] != c
    ensures r.None? <==> c !in s
  {
    if s == [] then None
    else if s[|s| - 1] == c then Some(|s| - 1)
    else
      var r := LastIndexOf(s[..|s| - 1], c);
      assert s == s[..|s| - 1] + [s[|s| - 1]];
      r
  }

  /** An opening fence at `p`, and `q` is the nearest closing fence after it. */
  predicate FenceCloses(t: string, p: nat, q: nat) {
    OccursAt(t, FenceOpen, p) && p + |FenceOpen| <= q && OccursAt(t, FenceClose, q)
    && forall j | p + |FenceOpen| <= j < q :: !OccursAt(t, FenceClose, j)
  }

  /** The first alternative matches at `p`: the opening fence there and a closing fence after it
      (the white space around the lazily captured body can always be given back). */
  predicate FenceMatchesAt(t: string, p: nat) {
    OccursAt(t, FenceOpen, p) && exists q | p + |FenceOpen| <= q <= |t| :: OccursAt(t, FenceClose, q)
  }

  /** `q` holds the last closing brace of `t`. */
  predicate LastBrace(t: string, q: nat) {
    q < |t| && t[q] == '}' && forall j | q < j < |t| :: t[j] != '}'
  }

  /** The second alternative matches at `p`: an opening brace there and a closing brace later. */
  predicate BraceMatchesAt(t: string, p: nat) {
    p < |t| && t[p] == '{' && exists q | p < q < |t| :: t[q] == '}'
  }

  predicate MatchesAt(t: string, p: nat) {
    FenceMatchesAt(t, p) || BraceMatchesAt(t, p)
  }

  /** What the first alternative captures at `p`: the text between the opening fence and the
      nearest closing fence, without the white space around it. */
  function FenceCapture(t: string, p: nat): (r: Option<string>)
    ensures r.Some? <==> FenceMatchesAt(t, p)
    ensures forall q: nat | FenceCloses(t, p, q) :: r == Some(Trim(t[p + |FenceOpen|..q]))
    ensures r.Some? ==> Contains(t, r.value)
  {
    if !OccursAt(t, FenceOpen, p) then None
    else match IndexFrom(t, FenceClose, p + |FenceOpen|)
      case None => None
      case Some(q) =>
        var body := t[p + |FenceOpen|..q];
        assert t[..q] == t[..p + |FenceOpen|] + body;
        assert t == t[..q] + t[q..];
        ContainsMiddle(t[..p + |FenceOpen|], body, t[q..]);
        TrimInside(body);
        ContainsPart(t, body, Trim(body));
        Some(Trim(body))
  }

  /** What the second alternative captures at `p`: the greedy span from that brace to the last
      closing brace of the text. */
  function BraceCapture(t: string, p: nat): (r: Option<string>)
    ensures r.Some? <==> BraceMatchesAt(t, p)
    ensures forall q: nat | BraceMatchesAt(t, p) && LastBrace(t, q) :: p < q && r == Some(t[p..q + 1])
    ensures r.Some? ==> Contains(t, r.value) && r.value != [] && r.value[0] == '{' && r.value[|r.value| - 1] == '}'
  {
    if p >= |t| || t[p] != '{' then None
    else match LastIndexOf(t, '}')
      case None => None
      case Some(q) =>
        if q <= p then None
        else
          assert t == t[..p] + t[p..q + 1] + t[q + 1..];
          ContainsMiddle(t[..p], t[p..q + 1], t[q + 1..]);
          Some(t[p..q + 1])
  }

  /** The two alternatives never both match at one position: one needs a backquote there, the
      other a brace. So the order in which the regular expression tries them never matters. */
  lemma AlternativesExclusive(t: string, p: nat)
    ensures !(FenceMatchesAt(t, p) && BraceMatchesAt(t, p))
  {
    if OccursAt(t, FenceOpen, p) {
      assert t[p..p + |FenceOpen|][0] == t[p];
    }
  }

  /** What the regular expression captures when its match starts at `p`. */
  function MatchAt(t: string, p: nat): (r: Option<string>)
    ensures r.Some? <==> MatchesAt(t, p)
    ensures FenceMatchesAt(t, p) ==> r == FenceCapture(t, p)
    ensures BraceMatchesAt(t, p) ==> r == BraceCapture(t, p)
  {
    AlternativesExclusive(t, p);
    var f := FenceCapture(t, p);
    if f.Some? then f else BraceCapture(t, p)
  }

  /** The capture of the leftmost match at or after `from`. */
  function ExtractFrom(t: string, from: nat): (r: Option<string>)
    ensures r.Some? <==> exists p | from <= p < |t| :: MatchesAt(t, p)
    ensures r.Some? ==> Contains(t, r.value)
    decreases |t| - from
  {
    if from >= |t| then None
    else
      var m := MatchAt(t, from);
      if m.Some? then
        assert MatchesAt(t, from);
        m
      else
        var r := ExtractFrom(t, from + 1);
        assert forall p | from <= p < |t| && MatchesAt(t, p) :: from + 1 <= p;
        r
  }

  /** `match[1] || match[2]`: the text handed to `JSON.parse`, or `None` when the regular
      expression finds nothing. A fenced block with nothing inside captures the empty string,
      which the `||` turns into `undefined`; callers treat `Some([])` as that case. */
  function ExtractJson(t: string): (r: Option<string>)
    ensures r.Some? <==> exists p | 0 <= p < |t| :: MatchesAt(t, p)
    ensures r.Some? ==> Contains(t, r.value)
  {
    ExtractFrom(t, 0)
  }

  lemma {:induction false} ExtractFromLeftmost(t: string, from: nat, p: nat)
    requires from <= p < |t| && MatchesAt(t, p)
    requires forall j | from <= j < p :: !MatchesAt(t, j)
    ensures ExtractFrom(t, from) == MatchAt(t, p)
    decreases p - from
  {
    if from < p {
      assert !MatchesAt(t, from);
      ExtractFromLeftmost(t, from + 1, p);
    }
  }

  /** The regular expression reports the match that starts earliest in the text. */
  lemma ExtractLeftmost(t: string, p: nat)
    requires p < |t| && MatchesAt(t, p)
    requires forall j | 0 <= j < p :: !MatchesAt(t, j)
    ensures ExtractJson(t) == MatchAt(t, p)
  {
    ExtractFromLeftmost(t, 0, p);
  }

  /** An answer that is a bare object, as the JSON response mode asks for, is handed over whole. */
  lemma BareObjectExtractsWhole(t: string)
    requires |t| >= 2 && t[0] == '{' && t[|t| - 1] == '}'
    ensures ExtractJson(t) == Some(t)
  {
    assert BraceMatchesAt(t, 0);
    assert LastBrace(t, |t| - 1);
    assert t[0..|t|] == t;
    ExtractLeftmost(t, 0);
  }

  /** An answer that is one fenced block hands over the block's body without its white space. */
  lemma FencedBlockExtractsBody(body: string)
    requires '`' !in body
    ensures ExtractJson(FenceOpen + body + FenceClose) == Some(Trim(body))
  {
    var t := FenceOpen + body + FenceClose;
    var q := |FenceOpen| + |body|;
    assert t[..|FenceOpen|] == FenceOpen;
    assert t[q..q + |FenceClose|] == FenceClose;
    forall j | |FenceOpen| <= j < q ensures !OccursAt(t, FenceClose, j) {
      assert t[j] == body[j - |FenceOpen|];
      assert t[j..j + |FenceClose|][0] == t[j];
    }
    assert FenceCloses(t, 0, q);
    assert OccursAt(t, FenceOpen, 0);
    assert FenceMatchesAt(t, 0);
    assert t[|FenceOpen|..q] == body;
    ExtractLeftmost(t, 0);
  }
}
