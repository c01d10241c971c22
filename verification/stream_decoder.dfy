/**
 The byte-level half of `generate`: the incomplete multi-byte guard that
 holds back the stop checks while a character is still arriving, and the
 anti-prompt search and truncation of the byte buffer.
 */
module StreamDecoder {
  import opened Common
  import opened Utf8

  /** The `(number, pattern)` pairs the guard tests, in the source's order. */
  const LeadPatterns: seq<(nat, bv8)> := [(2, 0xC0), (3, 0xE0), (4, 0xF0)]

  /** The inner loop: every pattern that `c` matches with `number > k` sets the countdown to `number - k`. */
  function MatchPatterns(fix: nat, c: bv8, k: int, ps: seq<(nat, bv8)>): nat
    decreases |ps|
  {
    if ps == [] then fix
    else
      var (number, pattern) := ps[0];
      MatchPatterns(if number > k && pattern & c == pattern then number - k else fix, c, k, ps[1..])
  }

  /**
   One byte of the scan: a lead byte announcing `n > k` bytes sets the
   countdown to `n - k`, anything else leaves it alone.
   */
  lemma MatchLeadByte(fix: nat, c: bv8, k: int)
    requires k >= 1
    ensures MatchPatterns(fix, c, k, LeadPatterns) == if SeqLength(c) > k then SeqLength(c) - k else fix
  {
    MasksAreLeadBytes(c);
  }

  /** The outer loop over `enumerate(tail)`, with `k = 3 - i` for the byte at index `i` of the tail. */
  function ScanTail(fix: nat, tail: Bytes, i: nat): nat
    requires i <= |tail|
    decreases |tail| - i
  {
    if i == |tail| then fix
    else ScanTail(MatchPatterns(fix, tail[i], 3 - i, LeadPatterns), tail, i + 1)
  }

  /** The last (at most three) bytes of the buffer, `tempBytes[-3:]`. */
  function Tail(buf: Bytes): (r: Bytes)
    ensures |r| == Min(3, |buf|)
  {
    buf[|buf| - Min(3, |buf|)..]
  }

  /**
   The countdown recomputed after a token's bytes were appended. It starts
   from the previous value, which survives when no byte matches.
   */
  function Rescan(fix: nat, buf: Bytes): nat
  {
    ScanTail(fix, Tail(buf), 0)
  }

  /** The countdown after one token, and whether the stop checks run for it. */
  datatype Guard = Guard(fix: nat, inspect: bool)

  /** `if incompleteFix > 0: incompleteFix -= 1; continue` after the rescan. */
  function GuardStep(fix: nat, buf: Bytes): (g: Guard)
  {
    var f := Rescan(fix, buf);
    if f > 0 then Guard(f - 1, false) else Guard(f, true)
  }

  /**
   The checks run exactly when no countdown was pending and no byte of the
   last three announces more bytes than the window still holds from it on;
   a withheld token leaves the rescanned countdown less one.
   */
  lemma GuardInspects(fix: nat, buf: Bytes)
    ensures GuardStep(fix, buf).inspect <==> fix == 0 && Settled(Tail(buf))
    ensures !GuardStep(fix, buf).inspect ==> GuardStep(fix, buf).fix == Rescan(fix, buf) - 1
    ensures GuardStep(fix, buf).inspect ==> GuardStep(fix, buf).fix == 0
  {
    ScanZero(fix, Tail(buf), 0);
  }

  /** No byte of the window announces more bytes than the window holds from it on, counted as the scan does. */
  predicate Settled(tail: Bytes)
  {
    forall i :: 0 <= i < |tail| ==> SeqLength(tail[i]) <= 3 - i
  }

  /** The scan ends at zero exactly when it starts at zero and no byte from `i` on matches a lead pattern. */
  lemma {:induction false} ScanZero(fix: nat, tail: Bytes, i: nat)
    requires i <= |tail| <= 3
    ensures ScanTail(fix, tail, i) == 0 <==> fix == 0 && forall k :: i <= k < |tail| ==> SeqLength(tail[k]) <= 3 - k
    decreases |tail| - i
  {
    if i < |tail| {
      MatchLeadByte(fix, tail[i], 3 - i);
      ScanZero(MatchPatterns(fix, tail[i], 3 - i, LeadPatterns), tail, i + 1);
    }
  }

  /**
   With at least three bytes buffered, the scan counts the bytes still missing
   from a truncated character at the end: a lead byte `j` bytes from the end
   (itself included) that announces `n > j` bytes, followed only by
   continuation bytes, sets the countdown to `n - j`, whatever came before.
   */
  lemma {:induction false} RescanCountsMissing(fix: nat, buf: Bytes, j: nat)
    requires |buf| >= 3 && 1 <= j <= 3
    requires SeqLength(buf[|buf| - j]) > j
    requires forall i :: |buf| - j < i < |buf| ==> IsContinuation(buf[i])
    ensures Rescan(fix, buf) == SeqLength(buf[|buf| - j]) - j
  {
    var tail := Tail(buf);
    var lead := 3 - j;
    assert tail[lead] == buf[|buf| - j];
    var f := ScanTail(fix, tail, 0);
    ScanPrefix(fix, tail, lead);
    var before := ScanTail(fix, tail[..lead], 0);
    MatchLeadByte(before, tail[lead], 3 - lead);
    ScanContinuations(SeqLength(tail[lead]) - j, tail, lead + 1);
  }

  /** Splitting the scan at index `m`: first the bytes before `m`, then the rest. */
  lemma {:induction false} ScanPrefix(fix: nat, tail: Bytes, m: nat)
    requires m < |tail|
    ensures ScanTail(fix, tail, 0) ==
            ScanTail(MatchPatterns(ScanTail(fix, tail[..m], 0), tail[m], 3 - m, LeadPatterns), tail, m + 1)
  {
    ScanSplit(fix, tail, 0, m);
  }

  lemma {:induction false} ScanSplit(fix: nat, tail: Bytes, i: nat, m: nat)
    requires i <= m < |tail|
    ensures ScanTail(fix, tail, i) ==
            ScanTail(MatchPatterns(ScanTail(fix, tail[..m], i), tail[m], 3 - m, LeadPatterns), tail, m + 1)
    decreases m - i
  {
    if i < m {
      assert tail[..m][i] == tail[i];
      ScanSplit(MatchPatterns(fix, tail[i], 3 - i, LeadPatterns), tail, i + 1, m);
    }
  }

  /** Continuation bytes never match a lead pattern, so scanning them keeps the countdown. */
  lemma {:induction false} ScanContinuations(fix: nat, tail: Bytes, i: nat)
    requires i <= |tail| <= 3
    requires forall k :: i <= k < |tail| ==> IsContinuation(tail[k])
    ensures ScanTail(fix, tail, i) == fix
    decreases |tail| - i
  {
    if i < |tail| {
      MatchLeadByte(fix, tail[i], 3 - i);
      ScanContinuations(fix, tail, i + 1);
    }
  }

  /**
   The guard's verdicts when the bytes `bytes` arrive one per token after
   the buffer `buf`: `true` where the stop checks run.
   */
  function Feed(fix: nat, buf: Bytes, bytes: Bytes): (r: seq<bool>)
    ensures |r| == |bytes|
    decreases |bytes|
  {
    if bytes == [] then []
    else
      var g := GuardStep(fix, buf + [bytes[0]]);
      [g.inspect] + Feed(g.fix, buf + [bytes[0]], bytes[1..])
  }

  /**
   A character of three or four bytes fed one byte per token after at least
   two buffered bytes is inspected only once its last byte has arrived,
   whatever the countdown was.
   */
  lemma WithheldUntilComplete(fix: nat, buf: Bytes, ch: char)
    requires |buf| >= 2
    requires |EncodeChar(ch)| >= 3
    ensures var r := Feed(fix, buf, EncodeChar(ch));
      (forall i :: 0 <= i < |r| - 1 ==> !r[i]) && r[|r| - 1]
  {
    var e := EncodeChar(ch);
    FirstTwoWithheld(fix, buf, e);
    var b2 := buf + [e[0]] + [e[1]];
    if |e| == 3 {
      LastByteInspected(0, b2, e[2]);
      assert e[2..] == [e[2]];
    } else {
      ThirdOfFourWithheld(1, b2, e);
      LastByteInspected(0, b2 + [e[2]], e[3]);
      assert e[3..] == [e[3]];
      assert Feed(fix, buf, e) == [false, false] + ([false] + [true]);
    }
  }

  /** The lead byte and the first continuation byte of a long character are withheld. */
  lemma FirstTwoWithheld(fix: nat, buf: Bytes, e: Bytes)
    requires |buf| >= 2 && 3 <= |e| <= 4
    requires SeqLength(e[0]) == |e|
    requires forall i :: 1 <= i < |e| ==> IsContinuation(e[i])
    ensures Feed(fix, buf, e) == [false, false] + Feed(|e| - 3, buf + [e[0]] + [e[1]], e[2..])
  {
    var b1 := buf + [e[0]];
    var b2 := b1 + [e[1]];
    var g1 := GuardStep(fix, b1);
    assert g1 == Guard(|e| - 2, false) by {
      RescanCountsMissing(fix, b1, 1);
    }
    var g2 := GuardStep(g1.fix, b2);
    assert g2 == Guard(|e| - 3, false) by {
      RescanCountsMissing(g1.fix, b2, 2);
    }
    assert e[1..][1..] == e[2..];
  }

  /** The third byte of a four-byte character is withheld too, with one byte still to come, whatever the countdown was. */
  lemma ThirdOfFourWithheld(fix: nat, b2: Bytes, e: Bytes)
    requires |b2| >= 2 && |e| == 4
    requires SeqLength(e[0]) == 4 && b2[|b2| - 1] == e[1] && b2[|b2| - 2] == e[0]
    requires forall i :: 1 <= i < |e| ==> IsContinuation(e[i])
    ensures Feed(fix, b2, e[2..]) == [false] + Feed(0, b2 + [e[2]], e[3..])
  {
    var b3 := b2 + [e[2]];
    assert GuardStep(fix, b3) == Guard(0, false) by {
      RescanCountsMissing(fix, b3, 3);
    }
    assert e[2..][1..] == e[3..];
  }

  /**
   The byte that completes a character: when the two bytes before it announce
   no more than it completes, the countdown is not raised, so the stop checks
   run exactly when it had already run out.
   */
  lemma LastByteInspected(fix: nat, b: Bytes, x: bv8)
    requires |b| >= 2
    requires SeqLength(b[|b| - 2]) <= 3 && SeqLength(b[|b| - 1]) <= 2 && SeqLength(x) <= 1
    ensures Feed(fix, b, [x]) == [fix == 0]
  {
    var b3 := b + [x];
    assert Tail(b3) == [b[|b| - 2], b[|b| - 1], x];
    NoLeadKeepsCount(fix, b3);
  }

  /**
   When no byte of the window announces more bytes than the window still
   holds from it on, the scan keeps the countdown; in particular once a
   character's last byte has arrived.
   */
  lemma NoLeadKeepsCount(fix: nat, buf: Bytes)
    requires Settled(Tail(buf))
    ensures Rescan(fix, buf) == fix
  {
    NoLeadScan(fix, Tail(buf), 0);
  }

  lemma {:induction false} NoLeadScan(fix: nat, tail: Bytes, i: nat)
    requires i <= |tail| <= 3
    requires forall k :: i <= k < |tail| ==> SeqLength(tail[k]) <= 3 - k
    ensures ScanTail(fix, tail, i) == fix
    decreases |tail| - i
  {
    if i < |tail| {
      MatchLeadByte(fix, tail[i], 3 - i);
      NoLeadScan(fix, tail, i + 1);
    }
  }

  /**
   Short buffers: for a buffer of fewer than three bytes `3 - i` is not the
   distance from the end, so a three-byte character (U+0800 to U+FFFF)
   arriving byte by byte into an empty buffer is inspected at every byte.
   */
  lemma ShortBufferNotGuarded(ch: char)
    requires |EncodeChar(ch)| == 3
    ensures Feed(0, [], EncodeChar(ch)) == [true, true, true]
  {
    var bytes := EncodeChar(ch);
    assert SeqLength(bytes[0]) == 3 && SeqLength(bytes[1]) == 0 && SeqLength(bytes[2]) == 0;
    ShortStep([], bytes);
    assert [] + [bytes[0]] == bytes[..1];
    ShortStep(bytes[..1], bytes[1..]);
    assert bytes[..1] + [bytes[1]] == bytes[..2];
    ShortStep(bytes[..2], bytes[2..]);
    assert bytes[..2] + [bytes[2]] == bytes;
  }

  /** A byte that leaves the buffer at most three bytes long, none announcing more than the rest of it, is inspected. */
  lemma ShortStep(b: Bytes, rest: Bytes)
    requires |rest| > 0 && |b| < 3
    requires Settled(b + [rest[0]])
    ensures Feed(0, b, rest) == [true] + Feed(0, b + [rest[0]], rest[1..])
  {
    var b' := b + [rest[0]];
    assert Tail(b') == b';
    NoLeadKeepsCount(0, b');
  }

  /**
   The first anti-prompt, in configuration order, that occurs in the buffer
   (`[a for a in encodedAntiPrompts if a in tempBytes][0]`), by its index.
   */
  function FirstAntiPrompt(aps: seq<Bytes>, buf: Bytes): (r: Option<nat>)
    ensures r.Some? ==> r.value < |aps| && Occurs(buf, aps[r.value])
    ensures r.Some? ==> forall k :: 0 <= k < r.value ==> !Occurs(buf, aps[k])
    ensures r.None? <==> forall k :: 0 <= k < |aps| ==> !Occurs(buf, aps[k])
    decreases |aps|
  {
    if aps == [] then None
    else if Find(buf, aps[0]) != -1 then Some(0)
    else
      match FirstAntiPrompt(aps[1..], buf)
      case None => None
      case Some(k) => Some(k + 1)
  }

  /**
   `tempBytes[:tempBytes.index(a)]`: the buffer cut before the first
   occurrence of `a`, so that `a` itself follows the cut.
   */
  function TruncateAt(buf: Bytes, a: Bytes): (r: Bytes)
    requires Occurs(buf, a)
    ensures r <= buf && r + a <= buf
    ensures OccursAt(buf, a, |r|) && forall j :: 0 <= j < |r| ==> !OccursAt(buf, a, j)
    ensures |a| > 0 ==> !Occurs(r, a)
  {
    var i := Find(buf, a);
    assert buf[..i] + a == buf[..i + |a|];
    PrefixBeforeFirst(buf, a, i);
    buf[..i]
  }

  /** Before the first occurrence of a non-empty `a` there is no occurrence of `a`. */
  lemma PrefixBeforeFirst(buf: Bytes, a: Bytes, i: nat)
    requires i <= |buf|
    requires forall j :: 0 <= j < i ==> !OccursAt(buf, a, j)
    ensures |a| > 0 ==> !Occurs(buf[..i], a)
  {
    if |a| > 0 {
      forall j | 0 <= j && OccursAt(buf[..i], a, j) ensures false {
        assert buf[..i][j..j + |a|] == buf[j..j + |a|];
        assert OccursAt(buf, a, j);
      }
    }
  }
}
