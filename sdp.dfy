/** The rewrite the device applies to its own offer before setting it as the
    local description (WebRTCManager.java `createOfferWithVideo`): every
    `a=sendrecv` media direction attribute (section 6 of RFC 4566) becomes
    `a=sendonly`, so that the screen is offered send-only (section 5.1 of
    RFC 3264). */
module Sdp {

  const SENDRECV: string := "a=sendrecv"
  const SENDONLY: string := "a=sendonly"

  predicate OccursAt(s: string, pat: string, i: int) {
    0 <= i && i + |pat| <= |s| && s[i..i + |pat|] == pat
  }

  predicate Contains(s: string, pat: string) {
    exists i :: 0 <= i <= |s| && OccursAt(s, pat, i)
  }

  /** Java's `String.replace(target, replacement)` for a non-empty target:
      scan left to right, replace each occurrence and continue after it. */
  function Replace(s: string, target: string, replacement: string): (r: string)
    requires |target| > 0
    ensures |target| == |replacement| ==> |r| == |s|
    decreases |s|
  {
    if |s| < |target| then s
    else if s[..|target|] == target then replacement + Replace(s[|target|..], target, replacement)
    else [s[0]] + Replace(s[1..], target, replacement)
  }

  /** The offer SDP as it is set locally and sent. */
  function RewriteDirection(sdp: string): (r: string)
    ensures |r| == |sdp|
  {
    Replace(sdp, SENDRECV, SENDONLY)
  }

  /** Text without the target is returned unchanged. */
  lemma {:induction false} ReplaceWithoutTarget(s: string, target: string, replacement: string)
    requires |target| > 0 && !Contains(s, target)
    ensures Replace(s, target, replacement) == s
    decreases |s|
  {
    if |s| >= |target| {
      assert !OccursAt(s, target, 0);
      DropFirstKeepsAbsent(s, target);
      ReplaceWithoutTarget(s[1..], target, replacement);
      assert [s[0]] + s[1..] == s;
    }
  }

  /** A text without the pattern still lacks it after its first character. */
  lemma DropFirstKeepsAbsent(s: string, pat: string)
    requires |s| >= 1 && !Contains(s, pat)
    ensures !Contains(s[1..], pat)
  {
    forall i | 0 <= i <= |s[1..]| ensures !OccursAt(s[1..], pat, i) {
      assert !OccursAt(s, pat, i + 1);
      if i + |pat| <= |s[1..]| {
        assert s[1..][i..i + |pat|] == s[i + 1..i + 1 + |pat|];
      }
    }
  }

  /** The rewrite never changes the first character: a replacement starts
      with the same `a` as the text it replaces. */
  lemma RewriteKeepsFirst(t: string)
    ensures |t| >= 1 ==> RewriteDirection(t)[0] == t[0]
  {
  }

  /** If the rewritten text starts with a word that contains no `a`, the
      original starts with the same word. */
  lemma {:induction false} PrefixWithoutAKept(t: string, w: string)
    ensures 'a' !in w && w <= RewriteDirection(t) ==> w <= t
    decreases |t|
  {
    if 'a' !in w && w <= RewriteDirection(t) && w != [] && |t| >= |SENDRECV| {
      RewriteKeepsFirst(t);
      assert w[0] == t[0];
      assert t[..|SENDRECV|] != SENDRECV by { assert t[..|SENDRECV|][0] == t[0] != SENDRECV[0]; }
      var rest := RewriteDirection(t[1..]);
      assert RewriteDirection(t) == [t[0]] + rest;
      assert w[1..] <= rest;
      assert 'a' !in w[1..] by {
        forall k | 0 <= k < |w[1..]| ensures w[1..][k] != 'a' { assert w[1..][k] == w[k + 1]; }
      }
      PrefixWithoutAKept(t[1..], w[1..]);
      assert w == [w[0]] + w[1..];
    }
  }

  /** Nothing that follows a replacement can complete an `a=sendrecv` that
      starts inside it. */
  lemma AfterSendOnly(rest: string)
    requires !Contains(rest, SENDRECV)
    ensures !Contains(SENDONLY + rest, SENDRECV)
  {
    var u := SENDONLY + rest;
    forall i | 0 <= i <= |u| ensures !OccursAt(u, SENDRECV, i) {
      if i >= 10 {
        assert !OccursAt(rest, SENDRECV, i - 10);
        if i + 10 <= |u| {
          assert u[i..i + 10] == rest[i - 10..i];
        }
      } else if i == 0 {
        assert u[..10] == SENDONLY;
      } else {
        assert u[i] == SENDONLY[i] && SENDONLY[i] != 'a';
        if i + 10 <= |u| {
          var w := u[i..i + 10];
          assert w[0] == u[i];
          assert w != SENDRECV by { assert w[0] != SENDRECV[0]; }
        }
      }
    }
  }

  /** A character that does not start an `a=sendrecv`, followed by the
      rewritten rest, does not start one either. */
  lemma KeptCharacterStartsNone(s: string)
    requires |s| >= |SENDRECV| && s[..|SENDRECV|] != SENDRECV
    ensures !OccursAt([s[0]] + RewriteDirection(s[1..]), SENDRECV, 0)
  {
    var rest := RewriteDirection(s[1..]);
    var u := [s[0]] + rest;
    var w := SENDRECV[1..];
    assert 'a' !in w;
    PrefixWithoutAKept(s[1..], w);
    var head, firstNine, original := u[..10], rest[..9], s[1..][..9];
    assert head == [s[0]] + firstNine;
    assert head == SENDRECV ==> firstNine == w;
    assert firstNine == w ==> w <= rest;
    assert s[..10] == [s[0]] + original;
    assert w <= s[1..] ==> original == w;
    assert SENDRECV == [SENDRECV[0]] + w;
  }

  /** A kept character followed by rewritten text without `a=sendrecv`
      contains none. */
  lemma AfterKeptCharacter(s: string)
    requires |s| >= |SENDRECV| && s[..|SENDRECV|] != SENDRECV
    requires !Contains(RewriteDirection(s[1..]), SENDRECV)
    ensures !Contains([s[0]] + RewriteDirection(s[1..]), SENDRECV)
  {
    var rest := RewriteDirection(s[1..]);
    var u := [s[0]] + rest;
    KeptCharacterStartsNone(s);
    forall i | 1 <= i <= |u| ensures !OccursAt(u, SENDRECV, i) {
      assert !OccursAt(rest, SENDRECV, i - 1);
      if i + 10 <= |u| {
        assert u[i..i + 10] == rest[i - 1..i + 9];
      }
    }
  }

  /** No `a=sendrecv` survives the rewrite, not even one formed across the
      boundary of a replacement. */
  lemma {:induction false} RewriteRemovesSendRecv(s: string)
    ensures !Contains(RewriteDirection(s), SENDRECV)
    decreases |s|
  {
    if |s| < |SENDRECV| {
      assert RewriteDirection(s) == s;
    } else if s[..|SENDRECV|] == SENDRECV {
      RewriteRemovesSendRecv(s[|SENDRECV|..]);
      AfterSendOnly(RewriteDirection(s[|SENDRECV|..]));
    } else {
      RewriteRemovesSendRecv(s[1..]);
      AfterKeptCharacter(s);
    }
  }

  /** Two occurrences of `a=sendrecv` never overlap: no proper prefix of it is
      also a suffix. */
  lemma SendRecvDoesNotOverlap(s: string, i: int)
    requires OccursAt(s, SENDRECV, 0) && 0 < i < |SENDRECV|
    ensures !OccursAt(s, SENDRECV, i)
  {
    assert s[i] == s[..10][i] == SENDRECV[i] != 'a';
    if i + 10 <= |s| {
      assert s[i..i + 10][0] == s[i];
    }
  }

  /** One step of the rewrite on a text at least as long as `a=sendrecv`. */
  lemma RewriteStep(s: string)
    requires |s| >= |SENDRECV|
    ensures s[..10] == SENDRECV ==> RewriteDirection(s) == SENDONLY + RewriteDirection(s[10..])
    ensures s[..10] != SENDRECV ==> RewriteDirection(s) == [s[0]] + RewriteDirection(s[1..])
  {
  }

  /** An occurrence seen from a later starting point. */
  lemma OccursInSuffix(s: string, pat: string, k: int, i: int)
    requires 0 <= k <= i && OccursAt(s, pat, i)
    ensures OccursAt(s[k..], pat, i - k)
  {
    assert s[k..][i - k..i - k + |pat|] == s[i..i + |pat|];
  }

  /** An occurrence seen after a prefix is put in front. */
  lemma OccursAfterPrefix(p: string, r: string, pat: string, i: int)
    requires OccursAt(r, pat, i)
    ensures OccursAt(p + r, pat, i + |p|)
  {
    assert (p + r)[i + |p|..i + |p| + |pat|] == r[i..i + |pat|];
  }

  /** Every `a=sendrecv` of the original sits, at the same position, as an
      `a=sendonly` in the rewritten text. */
  lemma {:induction false} RewriteReplacesEveryOccurrence(s: string, i: int)
    requires OccursAt(s, SENDRECV, i)
    ensures OccursAt(RewriteDirection(s), SENDONLY, i)
    decreases |s|
  {
    RewriteStep(s);
    if s[..10] == SENDRECV {
      var rest := RewriteDirection(s[10..]);
      if i == 0 {
        assert (SENDONLY + rest)[..10] == SENDONLY;
      } else {
        if i < 10 {
          SendRecvDoesNotOverlap(s, i);
        }
        OccursInSuffix(s, SENDRECV, 10, i);
        RewriteReplacesEveryOccurrence(s[10..], i - 10);
        OccursAfterPrefix(SENDONLY, rest, SENDONLY, i - 10);
      }
    } else {
      assert i != 0;
      OccursInSuffix(s, SENDRECV, 1, i);
      RewriteReplacesEveryOccurrence(s[1..], i - 1);
      OccursAfterPrefix([s[0]], RewriteDirection(s[1..]), SENDONLY, i - 1);
    }
  }

  /** Position `j` lies inside some occurrence of `a=sendrecv`. */
  predicate InsideSendRecv(s: string, j: int) {
    exists i :: 0 <= i <= |s| && OccursAt(s, SENDRECV, i) && i <= j < i + |SENDRECV|
  }

  /** Every character outside the occurrences of `a=sendrecv` is kept. */
  lemma {:induction false} RewriteKeepsOtherCharacters(s: string, j: int)
    requires 0 <= j < |s| && !InsideSendRecv(s, j)
    ensures RewriteDirection(s)[j] == s[j]
    decreases |s|
  {
    var r := RewriteDirection(s);
    if |s| >= 10 {
      if s[..10] == SENDRECV {
        assert OccursAt(s, SENDRECV, 0);
        var rest := RewriteDirection(s[10..]);
        assert r == SENDONLY + rest;
        forall i | OccursAt(s[10..], SENDRECV, i) && i <= j - 10 < i + 10 ensures false {
          assert s[10..][i..i + 10] == s[i + 10..i + 20];
          assert OccursAt(s, SENDRECV, i + 10);
        }
        RewriteKeepsOtherCharacters(s[10..], j - 10);
      } else {
        var rest := RewriteDirection(s[1..]);
        assert r == [s[0]] + rest;
        if j > 0 {
          forall i | OccursAt(s[1..], SENDRECV, i) && i <= j - 1 < i + 10 ensures false {
            assert s[1..][i..i + 10] == s[i + 1..i + 11];
            assert OccursAt(s, SENDRECV, i + 1);
          }
          RewriteKeepsOtherCharacters(s[1..], j - 1);
        }
      }
    }
  }

  /** An SDP with no `a=sendrecv` passes through unchanged, so rewriting
      twice is rewriting once. */
  lemma RewriteIdempotent(s: string)
    ensures !Contains(s, SENDRECV) ==> RewriteDirection(s) == s
    ensures RewriteDirection(RewriteDirection(s)) == RewriteDirection(s)
  {
    if !Contains(s, SENDRECV) {
      ReplaceWithoutTarget(s, SENDRECV, SENDONLY);
    }
    RewriteRemovesSendRecv(s);
    ReplaceWithoutTarget(RewriteDirection(s), SENDRECV, SENDONLY);
  }
}
