/** Left-to-right, non-overlapping replace-all, as performed by the
    `std::string::find` / `std::string::replace` loop that rewrites actuator
    references inside transform code.

    The specification side describes a text as a sequence of pieces: single
    literal characters and occurrences ("hits") of the searched pattern. The
    decomposition the scan produces is the greedy one: a literal character is
    only ever emitted where the remaining text does not start with the pattern.
    Replacing then means rendering the same decomposition with the replacement
    text in place of every hit. */
module Substitution {
  import opened Wrappers

  /** `pat` occurs in `s` starting at index `i`. */
  predicate OccursAt(s: string, pat: string, i: nat)
  {
    i + |pat| <= |s| && s[i..i + |pat|] == pat
  }

  /** First index at or after `from` where `pat` occurs in `s`, as
      `std::string::find(pat, from)` answers it; `None` plays the role of
      `npos`. */
  function Find(s: string, pat: string, from: nat): (r: Option<nat>)
    requires |pat| > 0
    ensures r.Some? ==> from <= r.value && OccursAt(s, pat, r.value)
    ensures r.Some? ==> forall j :: from <= j < r.value ==> !OccursAt(s, pat, j)
    ensures r.None? ==> forall j :: from <= j ==> !OccursAt(s, pat, j)
    decreases |s| - from
  {
    if from + |pat| > |s| then None
    else if OccursAt(s, pat, from) then Some(from)
    else Find(s, pat, from + 1)
  }

  /** Replace every occurrence of `pat` met by a left-to-right scan with `rep`;
      the scan resumes after the inserted text, so `rep` is never rescanned. */
  function ReplaceAll(s: string, pat: string, rep: string): string
    requires |pat| > 0
    decreases |s|
  {
    if |s| == 0 then []
    else if OccursAt(s, pat, 0) then rep + ReplaceAll(s[|pat|..], pat, rep)
    else [s[0]] + ReplaceAll(s[1..], pat, rep)
  }

  /** One element of a text's decomposition. */
  datatype Piece = Lit(c: char) | Hit

  /** The text a decomposition stands for, with `hit` written for every hit. */
  function Render(ps: seq<Piece>, hit: string): string
  {
    if |ps| == 0 then []
    else (match ps[0] case Lit(c) => [c] case Hit => hit) + Render(ps[1..], hit)
  }

  /** A decomposition in which no literal character starts an occurrence of
      `pat` in the text that remains from it: every occurrence the scan meets
      is taken as a hit. */
  ghost predicate Greedy(ps: seq<Piece>, pat: string)
  {
    forall k :: 0 <= k < |ps| && ps[k].Lit? ==> !OccursAt(Render(ps[k..], pat), pat, 0)
  }

  /** The decomposition a left-to-right scan for `pat` produces. */
  function Scan(s: string, pat: string): (ps: seq<Piece>)
    requires |pat| > 0
    ensures Render(ps, pat) == s
    decreases |s|
  {
    if |s| == 0 then []
    else if OccursAt(s, pat, 0) then
      var rest := Scan(s[|pat|..], pat);
      assert s == pat + s[|pat|..];
      assert ([Hit] + rest)[1..] == rest;
      [Hit] + rest
    else
      var rest := Scan(s[1..], pat);
      assert s == [s[0]] + s[1..];
      assert ([Lit(s[0])] + rest)[1..] == rest;
      [Lit(s[0])] + rest
  }

  lemma RenderCons(p: Piece, ps: seq<Piece>, hit: string)
    ensures Render([p] + ps, hit) == (match p case Lit(c) => [c] case Hit => hit) + Render(ps, hit)
  {
    assert ([p] + ps)[1..] == ps;
  }

  /** The scan's decomposition is greedy. */
  lemma {:induction false} ScanIsGreedy(s: string, pat: string)
    requires |pat| > 0
    ensures Greedy(Scan(s, pat), pat)
    decreases |s|
  {
    var ps := Scan(s, pat);
    if |s| == 0 {
    } else {
      var rest := if OccursAt(s, pat, 0) then s[|pat|..] else s[1..];
      ScanIsGreedy(rest, pat);
      forall k | 0 <= k < |ps| && ps[k].Lit?
        ensures !OccursAt(Render(ps[k..], pat), pat, 0)
      {
        if k == 0 {
          assert ps[0..] == ps;
        } else {
          assert ps[k..] == Scan(rest, pat)[k - 1..];
        }
      }
    }
  }

  /** A greedy decomposition of a text is unique: it is the scan's. */
  lemma {:induction false} GreedyIsScan(ps: seq<Piece>, s: string, pat: string)
    requires |pat| > 0
    requires Render(ps, pat) == s
    requires Greedy(ps, pat)
    ensures ps == Scan(s, pat)
    decreases |ps|
  {
    if |ps| == 0 {
    } else {
      var tail := ps[1..];
      assert ps == [ps[0]] + tail;
      RenderCons(ps[0], tail, pat);
      assert Greedy(tail, pat) by {
        forall k | 0 <= k < |tail| && tail[k].Lit?
          ensures !OccursAt(Render(tail[k..], pat), pat, 0)
        {
          assert tail[k..] == ps[k + 1..];
        }
      }
      match ps[0]
      case Hit =>
        assert s == pat + Render(tail, pat);
        assert OccursAt(s, pat, 0);
        assert s[|pat|..] == Render(tail, pat);
        GreedyIsScan(tail, s[|pat|..], pat);
      case Lit(c) =>
        assert ps[0..] == ps;
        assert !OccursAt(s, pat, 0);
        assert s[1..] == Render(tail, pat);
        GreedyIsScan(tail, s[1..], pat);
    }
  }

  /** Replacing is rendering the scan's decomposition with `rep` for every hit:
      the text between hits is copied unchanged. */
  lemma {:induction false} ReplaceAllRendersScan(s: string, pat: string, rep: string)
    requires |pat| > 0
    ensures ReplaceAll(s, pat, rep) == Render(Scan(s, pat), rep)
    decreases |s|
  {
    if |s| == 0 {
    } else if OccursAt(s, pat, 0) {
      ReplaceAllRendersScan(s[|pat|..], pat, rep);
      RenderCons(Hit, Scan(s[|pat|..], pat), rep);
    } else {
      ReplaceAllRendersScan(s[1..], pat, rep);
      RenderCons(Lit(s[0]), Scan(s[1..], pat), rep);
    }
  }

  /** The reference meaning of replace-all: take the greedy decomposition of
      the text into literal characters and occurrences of `pat`, and write
      `rep` for each occurrence. */
  lemma ReplaceAllSpec(ps: seq<Piece>, s: string, pat: string, rep: string)
    requires |pat| > 0
    requires Render(ps, pat) == s
    requires Greedy(ps, pat)
    ensures ReplaceAll(s, pat, rep) == Render(ps, rep)
  {
    GreedyIsScan(ps, s, pat);
    ReplaceAllRendersScan(s, pat, rep);
  }

  /** Text in which `pat` does not occur is returned unchanged. */
  lemma {:induction false} ReplaceAllNoOccurrence(s: string, pat: string, rep: string)
    requires |pat| > 0
    requires forall j :: !OccursAt(s, pat, j)
    ensures ReplaceAll(s, pat, rep) == s
    decreases |s|
  {
    if |s| > 0 {
      assert !OccursAt(s, pat, 0);
      forall j: nat ensures !OccursAt(s[1..], pat, j) {
        OccursAtSuffix(s, pat, 1, j);
      }
      ReplaceAllNoOccurrence(s[1..], pat, rep);
    }
  }

  /** Occurrences in a suffix are occurrences in the whole text, shifted. */
  lemma OccursAtSuffix(s: string, pat: string, d: nat, j: nat)
    requires d <= |s|
    ensures OccursAt(s[d..], pat, j) <==> OccursAt(s, pat, d + j)
  {
    if d + j + |pat| <= |s| {
      assert s[d..][j..j + |pat|] == s[d + j..d + j + |pat|];
    }
  }

  /** A prefix of length `k` in which no occurrence starts is copied as is. */
  lemma {:induction false} ReplaceAllSkipsPrefix(s: string, pat: string, rep: string, k: nat)
    requires |pat| > 0
    requires k <= |s|
    requires forall j :: 0 <= j < k ==> !OccursAt(s, pat, j)
    ensures ReplaceAll(s, pat, rep) == s[..k] + ReplaceAll(s[k..], pat, rep)
    decreases k
  {
    if k > 0 {
      assert !OccursAt(s, pat, 0);
      forall j: nat | j < k - 1 ensures !OccursAt(s[1..], pat, j) {
        OccursAtSuffix(s, pat, 1, j);
      }
      ReplaceAllSkipsPrefix(s[1..], pat, rep, k - 1);
      assert s[1..][k - 1..] == s[k..];
      assert s[..k] == [s[0]] + s[1..][..k - 1];
    }
  }

  /** Splicing `rep` over the first occurrence at or after `pos` keeps the
      loop's view of the final result: finished text, then the rest to scan. */
  lemma SpliceStep(code: string, pat: string, rep: string, pos: nat, p: nat)
    requires |pat| > 0
    requires pos <= p && OccursAt(code, pat, p)
    requires forall j :: pos <= j < p ==> !OccursAt(code, pat, j)
    ensures var next := code[..p] + rep + code[p + |pat|..];
      p + |rep| <= |next| &&
      next[..p + |rep|] + ReplaceAll(next[p + |rep|..], pat, rep)
        == code[..pos] + ReplaceAll(code[pos..], pat, rep)
  {
    var tail := code[p + |pat|..];
    var next := code[..p] + rep + tail;
    RewriteFromPos(code, pat, rep, pos, p);
    SpliceSlices(code, rep, pos, p, |pat|);
    assert next[..p + |rep|] + ReplaceAll(tail, pat, rep)
      == code[..pos] + (code[pos..][..p - pos] + rep + ReplaceAll(tail, pat, rep));
  }

  /** The rest of the text from `pos` is copied up to the occurrence at `p`,
      which becomes `rep`, and the scan goes on after it. */
  lemma RewriteFromPos(code: string, pat: string, rep: string, pos: nat, p: nat)
    requires |pat| > 0
    requires pos <= p && OccursAt(code, pat, p)
    requires forall j :: pos <= j < p ==> !OccursAt(code, pat, j)
    ensures ReplaceAll(code[pos..], pat, rep)
      == code[pos..][..p - pos] + rep + ReplaceAll(code[p + |pat|..], pat, rep)
  {
    var rest := code[pos..];
    forall j: nat | j < p - pos ensures !OccursAt(rest, pat, j) {
      OccursAtSuffix(code, pat, pos, j);
    }
    ReplaceAllSkipsPrefix(rest, pat, rep, p - pos);
    var hitOn := rest[p - pos..];
    OccursAtSuffix(code, pat, pos, p - pos);
    OccursAtSuffix(rest, pat, p - pos, 0);
    HitUnfolds(hitOn, pat, rep);
    assert hitOn[|pat|..] == code[p + |pat|..];
  }

  /** Index arithmetic of the splice. */
  lemma SpliceSlices(code: string, rep: string, pos: nat, p: nat, n: nat)
    requires pos <= p && p + n <= |code|
    ensures var next := code[..p] + rep + code[p + n..];
      && next[..p + |rep|] == code[..pos] + code[pos..][..p - pos] + rep
      && next[p + |rep|..] == code[p + n..]
  {
  }

  /** A text that starts with `pat` is rewritten to `rep`, then the rest. */
  lemma HitUnfolds(s: string, pat: string, rep: string)
    requires |pat| > 0
    requires OccursAt(s, pat, 0)
    ensures ReplaceAll(s, pat, rep) == rep + ReplaceAll(s[|pat|..], pat, rep)
  {
  }

  /** With no occurrence left at or after `pos`, the loop's view is final. */
  lemma ScanDone(code: string, pat: string, rep: string, pos: nat)
    requires |pat| > 0
    requires pos <= |code|
    requires forall j :: pos <= j ==> !OccursAt(code, pat, j)
    ensures code[..pos] + ReplaceAll(code[pos..], pat, rep) == code
  {
    forall j: nat ensures !OccursAt(code[pos..], pat, j) {
      OccursAtSuffix(code, pat, pos, j);
    }
    ReplaceAllNoOccurrence(code[pos..], pat, rep);
    assert code[..pos] + code[pos..] == code;
  }

  /** The source's loop: `pos = code.find(search, pos)`, splice in the
      replacement, continue at `pos + replace.length()`. */
  method ReplaceAllInPlace(code0: string, search: string, replace: string) returns (code: string)
    requires |search| > 0
    ensures code == ReplaceAll(code0, search, replace)
  {
    code := code0;
    var pos: nat := 0;
    while true
      invariant pos <= |code|
      invariant code[..pos] + ReplaceAll(code[pos..], search, replace) == ReplaceAll(code0, search, replace)
      decreases |code| - pos
    {
      var found := Find(code, search, pos);
      if found.None? {
        ScanDone(code, search, replace, pos);
        break;
      }
      var p := found.value;
      SpliceStep(code, search, replace, pos, p);
      code := code[..p] + replace + code[p + |search|..];
      pos := p + |replace|;
    }
  }
}
