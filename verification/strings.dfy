/** The two pieces of Java string behaviour the layouts rely on:
    `StringUtil.isEmpty` and `String.replace(CharSequence, CharSequence)`. */
module Strings {
  import opened Wrappers

  /** `StringUtil.isEmpty`: a nullable string is empty when it is `null` or
      has length zero. */
  predicate IsEmpty(s: Option<string>) {
    s.None? || |s.value| == 0
  }

  /** `target` occurs in `s` starting at index `i`. */
  predicate OccursAt(s: string, target: string, i: int) {
    0 <= i && i + |target| <= |s| && s[i..i + |target|] == target
  }

  /** Java's `s.replace(target, replacement)`: scans `s` from the left and
      replaces every non-overlapping occurrence of `target`. An empty `target`
      matches before every character and at the end (characters here are
      Unicode scalar values, not UTF-16 code units), so
      `"ab".replace("", "-")` is `"-a-b-"`. */
  function Replace(s: string, target: string, replacement: string): (r: string)
    ensures |target| == 0 ==> |r| == |s| + (|s| + 1) * |replacement|
    ensures |target| > 0 && |replacement| <= |target| ==> |r| <= |s|
    ensures |target| > 0 && |s| < |target| ==> r == s
    decreases |s|
  {
    if |target| == 0 then
      if |s| == 0 then replacement
      else replacement + [s[0]] + Replace(s[1..], target, replacement)
    else if |s| < |target| then s
    else if s[..|target|] == target then
      replacement + Replace(s[|target|..], target, replacement)
    else
      [s[0]] + Replace(s[1..], target, replacement)
  }

  /** Replacing a target that does not occur leaves the string unchanged. */
  lemma {:induction false} ReplaceWithoutOccurrence(s: string, target: string, replacement: string)
    requires |target| > 0
    requires forall i :: 0 <= i <= |s| ==> !OccursAt(s, target, i)
    ensures Replace(s, target, replacement) == s
    decreases |s|
  {
    if |s| >= |target| {
      assert !OccursAt(s, target, 0);
      assert s[..|target|] != target;
      var rest := s[1..];
      forall i | 0 <= i <= |rest|
        ensures !OccursAt(rest, target, i)
      {
        assert !OccursAt(s, target, i + 1);
        if i + |target| <= |rest| {
          assert rest[i..i + |target|] == s[i + 1..i + 1 + |target|];
        }
      }
      ReplaceWithoutOccurrence(rest, target, replacement);
      assert [s[0]] + rest == s;
    }
  }

  /** With an empty target, slot `i` of the result (each slot is one
      replacement followed by one character) starts with a whole copy of
      `replacement`. */
  predicate CopyAt(r: string, replacement: string, i: int) {
    var w := |replacement| + 1;
    0 <= i && i * w + |replacement| <= |r| && r[i * w..i * w + |replacement|] == replacement
  }

  /** With an empty target, slot `i` of the result ends with the character `c`. */
  predicate CharAt(r: string, replacement: string, i: int, c: char) {
    var w := |replacement| + 1;
    0 <= i && i * w + |replacement| < |r| && r[i * w + |replacement|] == c
  }

  /** An empty target puts a copy of `replacement` before every character of
      `s` and one at the end: the result is `|s|` slots of one copy and the
      next character of `s`, then one more copy. */
  lemma {:induction false} ReplaceEmptyTarget(s: string, replacement: string)
    ensures forall i :: 0 <= i <= |s| ==> CopyAt(Replace(s, "", replacement), replacement, i)
    ensures forall i :: 0 <= i < |s| ==> CharAt(Replace(s, "", replacement), replacement, i, s[i])
    decreases |s|
  {
    var r := Replace(s, "", replacement);
    if |s| == 0 {
      FirstSlot(r, replacement);
    } else {
      var head := replacement + [s[0]];
      var tail := Replace(s[1..], "", replacement);
      ReplaceEmptyTarget(s[1..], replacement);
      assert r == head + tail;
      FirstSlot(r, replacement);
      forall i | 0 < i <= |s|
        ensures CopyAt(r, replacement, i)
      {
        ShiftCopy(head, tail, replacement, i);
      }
      forall i | 0 < i < |s|
        ensures CharAt(r, replacement, i, s[i])
      {
        assert s[1..][i - 1] == s[i];
        ShiftChar(head, tail, replacement, i, s[i]);
      }
    }
  }

  /** The result of an empty-target replace starts with a copy, and with
      `s[0]` right after it when `s` is not empty. */
  lemma FirstSlot(r: string, replacement: string)
    requires |r| >= |replacement| && r[..|replacement|] == replacement
    ensures CopyAt(r, replacement, 0)
    ensures |r| > |replacement| ==> CharAt(r, replacement, 0, r[|replacement|])
  {
  }

  /** Putting one slot in front of `tail` moves its slot `i - 1` to `i`. */
  lemma ShiftCopy(head: string, tail: string, replacement: string, i: int)
    requires |head| == |replacement| + 1 && i > 0
    requires CopyAt(tail, replacement, i - 1)
    ensures CopyAt(head + tail, replacement, i)
  {
  }

  /** Putting one slot in front of `tail` moves the character of its slot
      `i - 1` to slot `i`. */
  lemma ShiftChar(head: string, tail: string, replacement: string, i: int, c: char)
    requires |head| == |replacement| + 1 && i > 0
    requires CharAt(tail, replacement, i - 1, c)
    ensures CharAt(head + tail, replacement, i, c)
  {
  }

  /** The first occurrence of a non-empty `target`, at `k`, is replaced: the
      part before it is kept, the occurrence becomes `replacement`, and the
      scan resumes right after it. */
  lemma ReplaceFirstOccurrence(s: string, target: string, replacement: string, k: nat)
    requires |target| > 0
    requires OccursAt(s, target, k)
    requires forall j :: 0 <= j < k ==> !OccursAt(s, target, j)
    ensures Replace(s, target, replacement)
      == s[..k] + replacement + Replace(s[k + |target|..], target, replacement)
  {
    var rest := s[k..];
    var tail := Replace(s[k + |target|..], target, replacement);
    assert Replace(rest, target, replacement) == replacement + tail by {
      assert rest[0..|target|] == s[k..k + |target|];
      ReplaceMatchHead(rest, target, replacement);
      assert rest[|target|..] == s[k + |target|..];
    }
    ReplaceSkipPrefix(s, target, replacement, k);
    assert s[..k] + (replacement + tail) == s[..k] + replacement + tail;
  }

  /** The scan keeps a prefix of `s` in which no non-empty `target` starts. */
  lemma {:induction false} ReplaceSkipPrefix(s: string, target: string, replacement: string, k: nat)
    requires |target| > 0 && k + |target| <= |s|
    requires forall j :: 0 <= j < k ==> !OccursAt(s, target, j)
    ensures Replace(s, target, replacement) == s[..k] + Replace(s[k..], target, replacement)
    decreases k
  {
    if k == 0 {
      assert s[..k] == [] && s[k..] == s;
    } else {
      assert !OccursAt(s, target, 0);
      assert s[..|target|] == s[0..|target|];
      ReplaceOtherHead(s, target, replacement);
      NoStartInTail(s, target, k);
      ReplaceSkipPrefix(s[1..], target, replacement, k - 1);
      SkipGlue(s, k, Replace(s[k..], target, replacement));
    }
  }

  /** No target starts before `k - 1` in `s[1..]` when none starts before
      `k` in `s`. */
  lemma NoStartInTail(s: string, target: string, k: nat)
    requires |target| > 0 && 0 < k && k + |target| <= |s|
    requires forall j :: 0 <= j < k ==> !OccursAt(s, target, j)
    ensures forall j :: 0 <= j < k - 1 ==> !OccursAt(s[1..], target, j)
  {
    forall j | 0 <= j < k - 1
      ensures !OccursAt(s[1..], target, j)
    {
      assert !OccursAt(s, target, j + 1);
      assert s[1..][j..j + |target|] == s[j + 1..j + 1 + |target|];
    }
  }

  /** Slicing `s[1..]` at `k - 1` and putting `s[0]` back in front. */
  lemma SkipGlue(s: string, k: nat, tail: string)
    requires 0 < k <= |s|
    ensures s[1..][k - 1..] == s[k..]
    ensures [s[0]] + (s[1..][..k - 1] + tail) == s[..k] + tail
  {
  }

  /** One scan step of `Replace` at an occurrence of a non-empty target. */
  lemma ReplaceMatchHead(s: string, target: string, replacement: string)
    requires |target| > 0 && OccursAt(s, target, 0)
    ensures Replace(s, target, replacement) == replacement + Replace(s[|target|..], target, replacement)
  {
  }

  /** One scan step of `Replace` where a non-empty target does not start. */
  lemma ReplaceOtherHead(s: string, target: string, replacement: string)
    requires |target| > 0 && |s| >= |target| && s[..|target|] != target
    ensures Replace(s, target, replacement) == [s[0]] + Replace(s[1..], target, replacement)
  {
  }


  /** One step of replacing the single character `c`: a leading `c` turns
      into `replacement`. */
  lemma ReplaceCharHead(c: char, rest: string, replacement: string)
    ensures Replace([c] + rest, [c], replacement) == replacement + Replace(rest, [c], replacement)
  {
  }

  /** One step of replacing the single character `c`: any other leading
      character is kept. */
  lemma KeepCharHead(a: char, c: char, rest: string, replacement: string)
    requires a != c
    ensures Replace([a] + rest, [c], replacement) == [a] + Replace(rest, [c], replacement)
  {
  }

  /** Replacing a character that does not occur leaves the string unchanged. */
  lemma {:induction false} ReplaceAbsentChar(s: string, c: char, replacement: string)
    requires c !in s
    ensures Replace(s, [c], replacement) == s
    decreases |s|
  {
    if |s| > 0 {
      ReplaceAbsentChar(s[1..], c, replacement);
      KeepCharHead(s[0], c, s[1..], replacement);
      assert [s[0]] + s[1..] == s;
    }
  }

  /** Round trip: when the line-break character `c` does not occur in `s`,
      turning every `target` into `c` and then every `c` back into `target`
      restores `s`, whatever `target` is (the empty one included). */
  lemma {:induction false} ReplaceRoundTrip(s: string, target: string, c: char)
    requires c !in s
    ensures Replace(Replace(s, target, [c]), [c], target) == s
    decreases |s|
  {
    var r := Replace(s, target, [c]);
    if |target| == 0 {
      if |s| == 0 {
        assert r == [c] + [];
        ReplaceCharHead(c, [], target);
      } else {
        var tail := Replace(s[1..], target, [c]);
        assert r == [c] + ([s[0]] + tail);
        ReplaceCharHead(c, [s[0]] + tail, target);
        KeepCharHead(s[0], c, tail, target);
        ReplaceRoundTrip(s[1..], target, c);
        assert [s[0]] + s[1..] == s;
      }
    } else if |s| < |target| {
      ReplaceAbsentChar(s, c, target);
    } else if s[..|target|] == target {
      var rest := s[|target|..];
      assert c !in rest by {
        forall i | 0 <= i < |rest| ensures rest[i] != c {
          assert rest[i] == s[|target| + i];
        }
      }
      ReplaceCharHead(c, Replace(rest, target, [c]), target);
      ReplaceRoundTrip(rest, target, c);
      assert s[..|target|] + rest == s;
    } else {
      ReplaceRoundTrip(s[1..], target, c);
      KeepCharHead(s[0], c, Replace(s[1..], target, [c]), target);
      assert [s[0]] + s[1..] == s;
    }
  }
}
