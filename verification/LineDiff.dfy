/** The line diff of the protocol registry: a dynamic-programming matrix of longest
    common subsequence lengths, and a walk through it that emits an edit script. */
module LineDiff {

  newtype uint32 = n: int | 0 <= n < 0x1_0000_0000

  datatype Edit = Context(text: string) | Added(text: string) | Removed(text: string)

  // ----- Text and lines

  /** `text.split("\n")`: never empty, no part holds a newline. */
  function Split(text: string): (lines: seq<string>)
    ensures |lines| >= 1
    ensures forall i :: 0 <= i < |lines| ==> '\n' !in lines[i]
    ensures Join(lines) == text
    ensures |lines| <= |text| + 1
  {
    if text == "" then
      [""]
    else
      var rest := Split(text[1..]);
      if text[0] == '\n' then
        [""] + rest
      else
        var merged := [[text[0]] + rest[0]] + rest[1..];
        assert merged[1..] == rest[1..];
        merged
  }

  function Join(lines: seq<string>): string
    requires |lines| >= 1
  {
    if |lines| == 1 then lines[0] else lines[0] + "\n" + Join(lines[1..])
  }

  // ----- Edit scripts

  /** The lines a script shows of the text before the edit. */
  function Before(script: seq<Edit>): seq<string> {
    if script == [] then []
    else (if script[0].Added? then [] else [script[0].text]) + Before(script[1..])
  }

  /** The lines a script shows of the text after the edit. */
  function After(script: seq<Edit>): seq<string> {
    if script == [] then []
    else (if script[0].Removed? then [] else [script[0].text]) + After(script[1..])
  }

  function Kept(script: seq<Edit>): seq<string> {
    if script == [] then []
    else (if script[0].Context? then [script[0].text] else []) + Kept(script[1..])
  }

  /** The number of added and removed lines. */
  function Changes(script: seq<Edit>): nat {
    if script == [] then 0
    else (if script[0].Context? then 0 else 1) + Changes(script[1..])
  }

  // ----- Longest common subsequence

  function Max(a: nat, b: nat): nat { if a < b then b else a }

  /** Length of a longest common subsequence of `a[i..]` and `b[j..]`; the meaning of a matrix entry. */
  function Lcs(a: seq<string>, b: seq<string>, i: nat, j: nat): nat
    requires i <= |a| && j <= |b|
    decreases |a| - i + |b| - j
  {
    if i == |a| || j == |b| then 0
    else if a[i] == b[j] then 1 + Lcs(a, b, i + 1, j + 1)
    else Max(Lcs(a, b, i + 1, j), Lcs(a, b, i, j + 1))
  }

  ghost predicate Subsequence(c: seq<string>, a: seq<string>, i: nat)
    requires i <= |a|
    decreases |a| - i
  {
    if c == [] then true
    else if i == |a| then false
    else (c[0] == a[i] && Subsequence(c[1..], a, i + 1)) || Subsequence(c, a, i + 1)
  }

  /** Dropping the first line of either side loses at most one common line and gains none. */
  lemma {:induction false} LcsDropsByAtMostOne(a: seq<string>, b: seq<string>, i: nat, j: nat)
    requires i <= |a| && j <= |b|
    ensures i < |a| ==> Lcs(a, b, i + 1, j) <= Lcs(a, b, i, j) <= 1 + Lcs(a, b, i + 1, j)
    ensures j < |b| ==> Lcs(a, b, i, j + 1) <= Lcs(a, b, i, j) <= 1 + Lcs(a, b, i, j + 1)
    decreases |a| - i + |b| - j
  {
    if i < |a| && j < |b| {
      LcsDropsByAtMostOne(a, b, i + 1, j);
      LcsDropsByAtMostOne(a, b, i, j + 1);
    }
  }

  /** An entry never exceeds either remaining length, which is why `Uint32Array` cannot overflow. */
  lemma {:induction false} LcsBound(a: seq<string>, b: seq<string>, i: nat, j: nat)
    requires i <= |a| && j <= |b|
    ensures Lcs(a, b, i, j) <= |a| - i && Lcs(a, b, i, j) <= |b| - j
    decreases |a| - i + |b| - j
  {
    if i < |a| && j < |b| {
      if a[i] == b[j] {
        LcsBound(a, b, i + 1, j + 1);
      } else {
        LcsBound(a, b, i + 1, j);
        LcsBound(a, b, i, j + 1);
      }
    }
  }

  lemma {:induction false} SubsequenceTail(c: seq<string>, a: seq<string>, i: nat)
    requires i <= |a| && c != [] && Subsequence(c, a, i)
    ensures i < |a| && Subsequence(c[1..], a, i + 1)
    decreases |a| - i
  {
    if !(c[0] == a[i] && Subsequence(c[1..], a, i + 1)) {
      SubsequenceTail(c, a, i + 1);
    }
  }

  /** No common subsequence is longer than `Lcs`. */
  lemma {:induction false} LcsIsUpperBound(c: seq<string>, a: seq<string>, b: seq<string>, i: nat, j: nat)
    requires i <= |a| && j <= |b|
    requires Subsequence(c, a, i) && Subsequence(c, b, j)
    ensures |c| <= Lcs(a, b, i, j)
    decreases |a| - i + |b| - j
  {
    if c != [] {
      if a[i] == b[j] {
        SubsequenceTail(c, a, i);
        SubsequenceTail(c, b, j);
        LcsIsUpperBound(c[1..], a, b, i + 1, j + 1);
      } else if Subsequence(c, a, i + 1) {
        LcsIsUpperBound(c, a, b, i + 1, j);
      } else {
        LcsIsUpperBound(c, a, b, i, j + 1);
      }
    }
  }

  /** No edit script between two texts keeps more lines than `Lcs`. */
  lemma {:induction false} EveryScriptKeepsAtMostLcs(script: seq<Edit>, a: seq<string>, b: seq<string>, i: nat, j: nat)
    requires i <= |a| && j <= |b|
    requires Before(script) == a[i..] && After(script) == b[j..]
    ensures |Kept(script)| <= Lcs(a, b, i, j)
  {
    if script != [] {
      var rest := script[1..];
      match script[0] {
        case Context(text) =>
          assert Before(rest) == a[i..][1..] == a[i + 1..];
          assert After(rest) == b[j..][1..] == b[j + 1..];
          EveryScriptKeepsAtMostLcs(rest, a, b, i + 1, j + 1);
        case Added(text) =>
          assert After(rest) == b[j..][1..] == b[j + 1..];
          EveryScriptKeepsAtMostLcs(rest, a, b, i, j + 1);
          LcsDropsByAtMostOne(a, b, i, j);
        case Removed(text) =>
          assert Before(rest) == a[i..][1..] == a[i + 1..];
          EveryScriptKeepsAtMostLcs(rest, a, b, i + 1, j);
          LcsDropsByAtMostOne(a, b, i, j);
      }
    }
  }

  lemma {:induction false} ChangesCountWhatIsNotKept(script: seq<Edit>)
    ensures Changes(script) == |Before(script)| + |After(script)| - 2 * |Kept(script)|
  {
    if script != [] {
      ChangesCountWhatIsNotKept(script[1..]);
    }
  }

  // ----- The walk

  /** The script the walk emits from `(i, j)`: a shared line when the heads agree, else
      the added line when skipping it keeps at least as much, else the removed line. */
  function Walk(a: seq<string>, b: seq<string>, i: nat, j: nat): seq<Edit>
    requires i <= |a| && j <= |b|
    decreases |a| - i + |b| - j
  {
    if i == |a| && j == |b| then
      []
    else if i < |a| && j < |b| && a[i] == b[j] then
      [Context(a[i])] + Walk(a, b, i + 1, j + 1)
    else if j < |b| && (i == |a| || Lcs(a, b, i, j + 1) >= Lcs(a, b, i + 1, j)) then
      [Added(b[j])] + Walk(a, b, i, j + 1)
    else
      [Removed(a[i])] + Walk(a, b, i + 1, j)
  }

  /** The walk spells both texts and keeps as many lines as any common subsequence has. */
  lemma {:induction false} WalkSpellsBoth(a: seq<string>, b: seq<string>, i: nat, j: nat)
    requires i <= |a| && j <= |b|
    ensures Before(Walk(a, b, i, j)) == a[i..] && After(Walk(a, b, i, j)) == b[j..]
    ensures |Kept(Walk(a, b, i, j))| == Lcs(a, b, i, j)
    decreases |a| - i + |b| - j
  {
    if i < |a| && j < |b| && a[i] == b[j] {
      WalkSpellsBoth(a, b, i + 1, j + 1);
    } else if j < |b| && (i == |a| || Lcs(a, b, i, j + 1) >= Lcs(a, b, i + 1, j)) {
      WalkSpellsBoth(a, b, i, j + 1);
    } else if i < |a| {
      WalkSpellsBoth(a, b, i + 1, j);
    }
  }

  /** The kept lines of any script are a common subsequence of both sides. */
  lemma {:induction false} KeptIsCommon(script: seq<Edit>, a: seq<string>, b: seq<string>, i: nat, j: nat)
    requires i <= |a| && j <= |b|
    requires Before(script) == a[i..] && After(script) == b[j..]
    ensures Subsequence(Kept(script), a, i) && Subsequence(Kept(script), b, j)
  {
    if script != [] {
      var rest := script[1..];
      assert !script[0].Added? ==> Before(rest) == a[i..][1..] == a[i + 1..];
      assert !script[0].Removed? ==> After(rest) == b[j..][1..] == b[j + 1..];
      match script[0] {
        case Context(_) =>
          KeptIsCommon(rest, a, b, i + 1, j + 1);
          assert Kept(script)[1..] == Kept(rest);
        case Added(_) =>
          assert Kept(script) == Kept(rest);
          KeptIsCommon(rest, a, b, i, j + 1);
        case Removed(_) =>
          assert Kept(script) == Kept(rest);
          KeptIsCommon(rest, a, b, i + 1, j);
      }
    }
  }

  ghost predicate IsScriptFor(script: seq<Edit>, before: string, after: string) {
    Before(script) == Split(before) && After(script) == Split(after)
  }

  /** The walk's script turns one text into the other, and no script does so
      with fewer changes: the lines it keeps are a longest common subsequence. */
  lemma WalkIsMinimal(before: string, after: string)
    ensures var a, b := Split(before), Split(after);
            var script := Walk(a, b, 0, 0);
            && IsScriptFor(script, before, after)
            && (forall other :: IsScriptFor(other, before, after) ==> Changes(script) <= Changes(other))
            && (forall c :: Subsequence(c, a, 0) && Subsequence(c, b, 0) ==> |c| <= |Kept(script)|)
            && Subsequence(Kept(script), a, 0) && Subsequence(Kept(script), b, 0)
  {
    var a, b := Split(before), Split(after);
    var script := Walk(a, b, 0, 0);
    WalkSpellsBoth(a, b, 0, 0);
    forall other | IsScriptFor(other, before, after) ensures Changes(script) <= Changes(other) {
      EveryScriptKeepsAtMostLcs(other, a, b, 0, 0);
      ChangesCountWhatIsNotKept(other);
      ChangesCountWhatIsNotKept(script);
    }
    forall c | Subsequence(c, a, 0) && Subsequence(c, b, 0) ensures |c| <= |Kept(script)| {
      LcsIsUpperBound(c, a, b, 0, 0);
    }
    KeptIsCommon(script, a, b, 0, 0);
  }

  // ----- The matrix

  /** Fills the matrix bottom-up, right to left, as the source does. A JavaScript array
      holds fewer than 2^32 elements, so the entries fit their unsigned 32-bit cells. */
  method FillMatrix(left: seq<string>, right: seq<string>) returns (lengths: array2<uint32>)
    requires |left| < 0x1_0000_0000 && |right| < 0x1_0000_0000
    ensures fresh(lengths) && lengths.Length0 == |left| + 1 && lengths.Length1 == |right| + 1
    ensures forall i, j {:trigger lengths[i, j]} :: 0 <= i <= |left| && 0 <= j <= |right| ==>
            lengths[i, j] as int == Lcs(left, right, i, j)
  {
    lengths := new uint32[|left| + 1, |right| + 1]((i, j) => 0);
    var i := |left| - 1;
    while i >= 0
      invariant -1 <= i < |left|
      invariant forall r, c {:trigger lengths[r, c]} :: i < r <= |left| && 0 <= c <= |right| ==>
                lengths[r, c] as int == Lcs(left, right, r, c)
      invariant forall r :: 0 <= r <= |left| ==> lengths[r, |right|] == 0
    {
      var j := |right| - 1;
      while j >= 0
        invariant -1 <= j < |right|
        invariant forall r, c {:trigger lengths[r, c]} :: i < r <= |left| && 0 <= c <= |right| ==>
                  lengths[r, c] as int == Lcs(left, right, r, c)
        invariant forall c {:trigger lengths[i, c]} :: j < c <= |right| ==>
                  lengths[i, c] as int == Lcs(left, right, i, c)
        invariant forall r :: 0 <= r <= |left| ==> lengths[r, |right|] == 0
      {
        LcsBound(left, right, i, j);
        if left[i] == right[j] {
          lengths[i, j] := lengths[i + 1, j + 1] + 1;
        } else {
          lengths[i, j] := if lengths[i + 1, j] < lengths[i, j + 1] then lengths[i, j + 1] else lengths[i + 1, j];
        }
        j := j - 1;
      }
      i := i - 1;
    }
  }

  lemma JoinAgain(output: seq<Edit>, next: Edit, rest: seq<Edit>)
    ensures output + ([next] + rest) == (output + [next]) + rest
  {
  }

  /** Walks the filled matrix from its first cell, emitting one line a step. */
  method WalkMatrix(left: seq<string>, right: seq<string>, lengths: array2<uint32>) returns (output: seq<Edit>)
    requires lengths.Length0 == |left| + 1 && lengths.Length1 == |right| + 1
    requires forall i, j {:trigger lengths[i, j]} :: 0 <= i <= |left| && 0 <= j <= |right| ==>
             lengths[i, j] as int == Lcs(left, right, i, j)
    ensures output == Walk(left, right, 0, 0)
  {
    output := [];
    var i, j := 0, 0;
    while i < |left| || j < |right|
      invariant 0 <= i <= |left| && 0 <= j <= |right|
      invariant output + Walk(left, right, i, j) == Walk(left, right, 0, 0)
      decreases |left| - i + |right| - j
    {
      if i < |left| && j < |right| && left[i] == right[j] {
        JoinAgain(output, Context(left[i]), Walk(left, right, i + 1, j + 1));
        output := output + [Context(left[i])];
        i, j := i + 1, j + 1;
      } else if j < |right| && (i == |left| || lengths[i, j + 1] >= lengths[i + 1, j]) {
        JoinAgain(output, Added(right[j]), Walk(left, right, i, j + 1));
        output := output + [Added(right[j])];
        j := j + 1;
      } else {
        JoinAgain(output, Removed(left[i]), Walk(left, right, i + 1, j));
        output := output + [Removed(left[i])];
        i := i + 1;
      }
    }
  }

  /** `diffLines`. */
  method DiffLines(before: string, after: string) returns (output: seq<Edit>)
    requires |Split(before)| < 0x1_0000_0000 && |Split(after)| < 0x1_0000_0000
    ensures output == Walk(Split(before), Split(after), 0, 0)
    ensures IsScriptFor(output, before, after)
    ensures Join(Before(output)) == before && Join(After(output)) == after
    ensures forall other :: IsScriptFor(other, before, after) ==> Changes(output) <= Changes(other)
  {
    var left, right := Split(before), Split(after);
    var lengths := FillMatrix(left, right);
    output := WalkMatrix(left, right, lengths);
    WalkIsMinimal(before, after);
  }
}
