/** Facts about substring search (`includes`) on lower-cased text, used to decide which keyword
    an error message carries. */
module Search {
  import opened Text

  lemma LowerConcat(a: string, b: string)
    ensures Lower(a + b) == Lower(a) + Lower(b)
  {
  }

  lemma ShortNotContains(s: string, sub: string)
    requires |s| < |sub|
    ensures !Contains(s, sub)
  {
  }

  /** An occurrence cannot straddle a character the searched text does not have. */
  lemma SplitNotContains(a: string, c: char, b: string, sub: string)
    requires c !in sub && !Contains(a, sub) && !Contains(b, sub)
    ensures !Contains(a + [c] + b, sub)
  {
    var s := a + [c] + b;
    forall i | 0 <= i <= |s| - |sub| ensures !OccursAt(s, sub, i) {
      if i + |sub| <= |a| {
        assert s[i..i + |sub|] == a[i..i + |sub|];
        assert !OccursAt(a, sub, i);
      } else if i > |a| {
        assert s[i..i + |sub|] == b[i - |a| - 1..i - |a| - 1 + |sub|];
        assert !OccursAt(b, sub, i - |a| - 1);
      } else {
        assert s[i..i + |sub|][|a| - i] == c;
        assert sub[|a| - i] != c;
      }
    }
  }

  lemma LowerSplit(a: string, c: char, b: string, sub: string)
    requires LowerChar(c) !in sub && !Contains(Lower(a), sub) && !Contains(Lower(b), sub)
    ensures !Contains(Lower(a + [c] + b), sub)
  {
    LowerConcat(a + [c], b);
    LowerConcat(a, [c]);
    assert Lower([c]) == [LowerChar(c)];
    SplitNotContains(Lower(a), LowerChar(c), Lower(b), sub);
  }

  /** Words joined by a separator that `sub` lacks hold `sub` only if some word does. */
  lemma {:induction false} JoinNotContains(words: seq<string>, c: char, sub: string)
    requires LowerChar(c) !in sub && sub != []
    requires forall i | 0 <= i < |words| :: !Contains(Lower(words[i]), sub)
    ensures !Contains(Lower(Join(words, [c])), sub)
    decreases |words|
  {
    if |words| == 0 {
      ShortNotContains(Lower(""), sub);
    } else if |words| > 1 {
      JoinNotContains(words[1..], c, sub);
      LowerSplit(words[0], c, Join(words[1..], [c]), sub);
    }
  }

  /** Containment is transitive. */
  lemma ContainsPart(s: string, sub: string, part: string)
    requires Contains(s, sub) && Contains(sub, part)
    ensures Contains(s, part)
  {
    var i :| 0 <= i <= |s| - |sub| && OccursAt(s, sub, i);
    var j :| 0 <= j <= |sub| - |part| && OccursAt(sub, part, j);
    assert s[i..i + |sub|] == sub;
    assert forall k | 0 <= k < |part| :: s[i + j + k] == s[i..i + |sub|][j + k] == sub[j + k] == part[k];
    assert s[i + j..i + j + |part|] == part;
    assert OccursAt(s, part, i + j);
  }

  lemma ContainsMiddle(a: string, b: string, c: string)
    ensures Contains(a + b + c, b)
  {
    assert (a + b + c)[|a|..|a| + |b|] == b;
    assert OccursAt(a + b + c, b, |a|);
  }

  /** The trimmed text occurs in the text it was trimmed from. */
  lemma TrimInside(s: string)
    ensures Contains(s, Trim(s))
  {
    var a, b := TrimSplits(s);
    ContainsMiddle(a, Trim(s), b);
  }

  /** Lower-casing keeps an occurrence, lower-cased. */
  lemma LowerKeepsContains(s: string, sub: string)
    requires Contains(s, sub)
    ensures Contains(Lower(s), Lower(sub))
  {
    var i :| 0 <= i <= |s| - |sub| && OccursAt(s, sub, i);
    assert Lower(s)[i..i + |sub|] == Lower(s[i..i + |sub|]);
    assert OccursAt(Lower(s), Lower(sub), i);
  }

  /** Every word of a joined text occurs in it. */
  lemma {:induction false} JoinContainsWord(words: seq<string>, k: nat, sep: string)
    requires k < |words|
    ensures Contains(Join(words, sep), words[k])
    decreases |words|
  {
    if |words| == 1 {
      assert Join(words, sep) == "" + words[0] + "";
      ContainsMiddle("", words[0], "");
    } else if k == 0 {
      assert Join(words, sep) == "" + words[0] + (sep + Join(words[1..], sep));
      ContainsMiddle("", words[0], sep + Join(words[1..], sep));
    } else {
      JoinContainsWord(words[1..], k - 1, sep);
      var rest := Join(words[1..], sep);
      assert Contains(rest, words[k]);
      assert Join(words, sep) == (words[0] + sep) + rest + "";
      ContainsMiddle(words[0] + sep, rest, "");
      ContainsPart(Join(words, sep), rest, words[k]);
    }
  }

  /** A word shorter than `n`, or without the letter `lo` in either case `lo`/`up`. */
  predicate Clear(w: string, n: nat, lo: char, up: char) {
    |w| < n || (lo !in w && up !in w)
  }

  /** Every word is clear. */
  predicate AllClear(words: seq<string>, n: nat, lo: char, up: char) {
    forall i | 0 <= i < |words| :: Clear(words[i], n, lo, up)
  }

  /** The letter `lo` of `frag` and its upper-case form `up`. */
  predicate LetterOf(frag: string, lo: char, up: char) {
    'a' <= lo <= 'z' && up as int == lo as int - 32 && lo in frag
  }

  lemma ClearMeans(w: string, frag: string, lo: char, up: char)
    requires LetterOf(frag, lo, up) && Clear(w, |frag|, lo, up)
    ensures !Contains(Lower(w), frag)
  {
    if |w| >= |frag| {
      var t := Lower(w);
      assert forall i | 0 <= i < |t| :: t[i] != lo;
      var k :| 0 <= k < |frag| && frag[k] == lo;
      forall i | 0 <= i <= |t| - |frag| ensures !OccursAt(t, frag, i) {
        assert t[i..i + |frag|][k] == t[i + k];
      }
    }
  }

  lemma AllClearMeans(words: seq<string>, frag: string, lo: char, up: char)
    requires LetterOf(frag, lo, up) && AllClear(words, |frag|, lo, up)
    ensures forall i | 0 <= i < |words| :: !Contains(Lower(words[i]), frag)
  {
    forall i | 0 <= i < |words| ensures !Contains(Lower(words[i]), frag) {
      ClearMeans(words[i], frag, lo, up);
    }
  }

  /** A sentence whose words are all clear of a letter of `frag` holds no keyword that
      contains `frag`, provided `frag` has no space. */
  lemma SentenceLacks(words: seq<string>, frag: string, lo: char, up: char, keyword: string)
    requires frag != [] && ' ' !in frag && LetterOf(frag, lo, up)
    requires AllClear(words, |frag|, lo, up)
    requires Contains(keyword, frag)
    ensures !Contains(Lower(Join(words, " ")), keyword)
  {
    AllClearMeans(words, frag, lo, up);
    JoinNotContains(words, ' ', frag);
    if Contains(Lower(Join(words, " ")), keyword) {
      ContainsPart(Lower(Join(words, " ")), keyword, frag);
    }
  }
}
