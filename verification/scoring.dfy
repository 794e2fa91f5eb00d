/**
 The score book of Bowling Solitaire: pure functions over the append-only
 ledger of per-roll pin counts (one entry per finished roll, in order),
 giving the frame breakdown and running totals under ten-pin rules.
 A pending total (`false` in entryway.js) is `None` and is never confused
 with a scored 0.
 */
module Scoring {
  import opened Wrappers

  /** One entry of the frame breakdown: the rolls shown in the frame box and
      the frame's own total, None while a bonus roll is still missing. */
  datatype FrameScore = FrameScore(rolls: seq<int>, total: Option<int>)

  /** The 1-based frame and the roll within that frame that the next ledger
      entry belongs to. */
  datatype Position = Position(frame: int, roll: int)

  /** What a frame box shows: up to three rolls ('' in getFrameScore when absent)
      and the cumulative total. */
  datatype FrameView = FrameView(first: Option<int>, second: Option<int>, third: Option<int>, total: Option<int>)

  function Min(a: int, b: int): int {
    if a <= b then a else b
  }

  function Sum(s: seq<int>): int {
    if |s| == 0 then 0 else s[0] + Sum(s[1..])
  }

  /* ---------------------------------------------------------------------- */
  /* getCurrentFrame / updateRoll                                            */
  /* ---------------------------------------------------------------------- */

  /** Positions a ledger scan can reach: frames 1 to 10, at most two rolls
      in each of frames 1-9, any number in frame 10. */
  predicate ValidPosition(p: Position) {
    1 <= p.frame <= 10 && 0 <= p.roll && (p.frame < 10 ==> p.roll <= 1)
  }

  /** The position after one more roll of `value` pins: a strike on a first
      roll or any second roll closes frames 1-9; frame 10 only counts rolls. */
  function Advance(p: Position, value: int): (q: Position)
    ensures ValidPosition(p) ==> ValidPosition(q)
    ensures ValidPosition(p) ==>
      (q.frame == p.frame + 1 <==> p.frame < 10 && (p.roll == 1 || value == 10))
    ensures q.frame == p.frame || q.frame == p.frame + 1
    ensures q.roll == if q.frame == p.frame then p.roll + 1 else 0
  {
    if value == 10 && p.roll == 0 && p.frame < 10 then Position(p.frame + 1, 0)
    else if p.roll == 1 && p.frame < 10 then Position(p.frame + 1, 0)
    else Position(p.frame, p.roll + 1)
  }

  /** getCurrentFrame(scores, i, frame, roll): the scan of the ledger from
      index i, starting at position p. */
  function CurrentFrameFrom(scores: seq<int>, i: nat, p: Position): (q: Position)
    requires i <= |scores|
    ensures ValidPosition(p) ==> ValidPosition(q) && p.frame <= q.frame
    decreases |scores| - i
  {
    if i == |scores| then p else CurrentFrameFrom(scores, i + 1, Advance(p, scores[i]))
  }

  /** getFrame(scores): the position of the roll the ledger is waiting for. */
  function CurrentFrame(scores: seq<int>): (q: Position)
    ensures ValidPosition(q)
  {
    CurrentFrameFrom(scores, 0, Position(1, 0))
  }

  lemma {:induction false} CurrentFrameFromAppend(scores: seq<int>, value: int, i: nat, p: Position)
    requires i <= |scores|
    ensures CurrentFrameFrom(scores + [value], i, p) == Advance(CurrentFrameFrom(scores, i, p), value)
    decreases |scores| - i
  {
    var s' := scores + [value];
    if i == |scores| {
      assert CurrentFrameFrom(s', i + 1, Advance(p, s'[i])) == Advance(p, value);
    } else {
      assert s'[i] == scores[i];
      CurrentFrameFromAppend(scores, value, i + 1, Advance(p, scores[i]));
    }
  }

  /** Appending a roll moves the ledger's position by exactly one Advance. */
  lemma CurrentFrameAppend(scores: seq<int>, value: int)
    ensures CurrentFrame(scores + [value]) == Advance(CurrentFrame(scores), value)
  {
    CurrentFrameFromAppend(scores, value, 0, Position(1, 0));
  }

  /** updateRoll(scores, value): appends the roll and reports whether it
      completed one of frames 1-9. */
  function UpdateRoll(scores: seq<int>, value: int): (r: (seq<int>, bool))
    ensures r.0 == scores + [value]
    ensures r.1 <==> CurrentFrame(r.0).frame == CurrentFrame(scores).frame + 1
    ensures r.1 ==> CurrentFrame(scores).frame < 10
  {
    var frameData := CurrentFrame(scores);
    CurrentFrameAppend(scores, value);
    (scores + [value], frameData.frame < 10 && (frameData.roll == 1 || value == 10))
  }

  /* ---------------------------------------------------------------------- */
  /* getFrameScores                                                          */
  /* ---------------------------------------------------------------------- */

  /** The tenth frame opening at ledger index i: the roll there and up to two
      more, summed as soon as two exist, with no bonus lookahead. */
  function TenthFrame(s: seq<int>, i: nat): FrameScore
    requires i < |s|
  {
    if i + 2 < |s| then FrameScore([s[i], s[i + 1], s[i + 2]], Some(s[i] + s[i + 1] + s[i + 2]))
    else if i + 1 < |s| then FrameScore([s[i], s[i + 1]], Some(s[i] + s[i + 1]))
    else FrameScore([s[i]], None)
  }

  /** Frame k < 9 opening at ledger index i: a strike (10 plus the next two
      rolls), a spare (10 plus the next roll), an open frame (its two rolls),
      or a lone first roll still waiting for its second. */
  function FrameAt(s: seq<int>, i: nat): (f: FrameScore)
    requires i < |s|
  {
    if s[i] == 10 then
      FrameScore([10], if i + 2 < |s| then Some(10 + s[i + 1] + s[i + 2]) else None)
    else if i + 1 < |s| then
      var pins := s[i] + s[i + 1];
      FrameScore([s[i], s[i + 1]],
                 if pins != 10 then Some(pins) else if i + 2 < |s| then Some(10 + s[i + 2]) else None)
    else
      FrameScore([s[i]], None)
  }

  /** The breakdown of the ledger from index i, where frame k (0-based) opens. */
  function FramesFrom(s: seq<int>, i: nat, k: nat): (r: seq<FrameScore>)
    requires i <= |s| && k <= 9
    ensures |r| <= 10 - k
    decreases |s| - i
  {
    if i == |s| then []
    else if k == 9 then [TenthFrame(s, i)]
    else [FrameAt(s, i)] + FramesFrom(s, i + |FrameAt(s, i).rolls|, k + 1)
  }

  /** The breakdown of a whole ledger: one entry per frame begun. */
  function FrameScoresOf(s: seq<int>): (r: seq<FrameScore>)
    ensures |r| <= 10
  {
    FramesFrom(s, 0, 0)
  }

  /** `frameScores[k] = f` in getFrameScores: overwrite entry k, or append it
      when k is one past the end. */
  function Put(fs: seq<FrameScore>, k: nat, f: FrameScore): (r: seq<FrameScore>)
    requires k <= |fs|
    ensures k == |fs| ==> r == fs + [f]
    ensures k < |fs| ==> r == fs[..k] + [f] + fs[k + 1..]
  {
    if k < |fs| then fs[k := f] else fs + [f]
  }

  /** Overwriting the entry just appended. */
  lemma PutLast(before: seq<FrameScore>, x: FrameScore, f: FrameScore)
    ensures Put(before + [x], |before|, f) == before + [f]
  {
    assert (before + [x])[..|before|] == before;
  }

  lemma SplitLast(fs: seq<FrameScore>)
    requires |fs| > 0
    ensures fs == fs[..|fs| - 1] + [fs[|fs| - 1]]
  {
  }

  /** Writing entry k of a breakdown that holds k or k + 1 entries. */
  lemma PutAt(fs: seq<FrameScore>, k: nat, f: FrameScore)
    requires |fs| == k || |fs| == k + 1
    ensures Put(fs, k, f) == fs[..k] + [f]
  {
    if |fs| == k {
      assert fs[..k] == fs;
    }
  }

  /* One lemma per branch of getFrameScores' loop, each relating the entry the
     branch writes to the breakdown still to come. */

  lemma StepStrikeOrPair(s: seq<int>, i: nat, k: nat, before: seq<FrameScore>,
                         whole: seq<FrameScore>)
    requires i < |s| && k < 9
    requires before + FramesFrom(s, i, k) == whole
    ensures (before + [FrameAt(s, i)]) + FramesFrom(s, i + |FrameAt(s, i).rolls|, k + 1) == whole
    ensures s[i] == 10 ==> |FrameAt(s, i).rolls| == 1
    ensures s[i] != 10 && i + 1 < |s| ==> |FrameAt(s, i).rolls| == 2
  {
    var x := FrameAt(s, i);
    var rest := FramesFrom(s, i + |x.rolls|, k + 1);
    assert FramesFrom(s, i, k) == [x] + rest;
    assert (before + [x]) + rest == before + ([x] + rest);
  }

  lemma StepTenth(s: seq<int>, i: nat, before: seq<FrameScore>, whole: seq<FrameScore>)
    requires i < |s|
    requires before + FramesFrom(s, i, 9) == whole
    ensures before + [TenthFrame(s, i)] == whole
  {
  }

  lemma StepLoneRoll(s: seq<int>, before: seq<FrameScore>, k: nat, whole: seq<FrameScore>)
    requires |s| > 0 && s[|s| - 1] != 10 && k < 9
    requires before + FramesFrom(s, |s| - 1, k) == whole
    ensures before + [FrameScore([s[|s| - 1]], None)] == whole
  {
    assert FramesFrom(s, |s|, k + 1) == [];
  }

  /** What the scan of getFrameScores knows before reading ledger entry i:
      the frames before `frame` are final, and after a lone first roll the
      current frame holds just that roll. */
  ghost predicate ScanInvariant(scores: seq<int>, whole: seq<FrameScore>, i: nat, frame: nat, roll: int,
                                frameScores: seq<FrameScore>) {
    && i <= |scores| && frame <= 9 && (roll == 0 || roll == 1) && roll <= i
    && |frameScores| == frame + roll
    && frameScores[..frame] + FramesFrom(scores, i - roll, frame) == whole
    && (roll == 1 ==> frame < 9 && scores[i - 1] != 10 && frameScores[frame] == FrameScore([scores[i - 1]], None))
  }

  /* The invariant across each branch of the loop body, where `fs` is the
     breakdown before the branch and `fs[..frame]` its final frames. */

  lemma KeepStrike(s: seq<int>, i: nat, frame: nat, fs: seq<FrameScore>, whole: seq<FrameScore>)
    requires i < |s| && ScanInvariant(s, whole, i, frame, 0, fs) && s[i] == 10 && frame < 9
    ensures ScanInvariant(s, whole, i + 1, frame + 1, 0, fs[..frame] + [FrameAt(s, i)])
  {
    StepStrikeOrPair(s, i, frame, fs[..frame], whole);
    var fs' := fs[..frame] + [FrameAt(s, i)];
    assert fs'[..frame + 1] == fs';
  }

  lemma KeepPair(s: seq<int>, i: nat, frame: nat, fs: seq<FrameScore>, whole: seq<FrameScore>)
    requires i < |s| && ScanInvariant(s, whole, i, frame, 1, fs)
    ensures ScanInvariant(s, whole, i + 1, frame + 1, 0, fs[..frame] + [FrameAt(s, i - 1)])
  {
    assert 1 <= i && frame < 9 && s[i - 1] != 10;
    assert fs[..frame] + FramesFrom(s, i - 1, frame) == whole;
    StepStrikeOrPair(s, i - 1, frame, fs[..frame], whole);
    assert i - 1 + |FrameAt(s, i - 1).rolls| == i + 1;
    var fs' := fs[..frame] + [FrameAt(s, i - 1)];
    assert fs'[..frame + 1] == fs';
    assert fs'[..frame + 1] + FramesFrom(s, i + 1, frame + 1) == whole;
  }

  lemma KeepFirst(s: seq<int>, i: nat, frame: nat, fs: seq<FrameScore>, whole: seq<FrameScore>)
    requires i < |s| && ScanInvariant(s, whole, i, frame, 0, fs) && s[i] != 10 && frame < 9
    ensures ScanInvariant(s, whole, i + 1, frame, 1, fs[..frame] + [FrameScore([s[i]], None)])
  {
    var fs' := fs[..frame] + [FrameScore([s[i]], None)];
    assert fs'[..frame] == fs[..frame];
  }

  /** One pass of the loop body of getFrameScores, at ledger entry i; `done`
      is the early return once the tenth frame has been written. */
  method ScanRoll(scores: seq<int>, ghost whole: seq<FrameScore>, i: nat, frame: nat, roll: int,
                  frameScores: seq<FrameScore>)
    returns (frameScores': seq<FrameScore>, frame': nat, roll': int, done: bool)
    requires i < |scores| && ScanInvariant(scores, whole, i, frame, roll, frameScores)
    ensures done ==> frameScores' == whole
    ensures !done ==> ScanInvariant(scores, whole, i + 1, frame', roll', frameScores')
  {
    ghost var before := frameScores[..frame];
    PutAt(frameScores, frame, FrameScore([], None));
    frameScores' := Put(frameScores, frame, FrameScore([], None));
    assert frameScores' == before + [FrameScore([], None)];
    frame', roll', done := frame, roll, false;
    if frame' == 9 {
      PutAt(frameScores', frame', TenthFrame(scores, i));
      frameScores' := Put(frameScores', frame', TenthFrame(scores, i));
      StepTenth(scores, i, before, whole);
      return frameScores', frame', roll', true;
    }
    if scores[i] == 10 && roll' == 0 && frame' < 9 {
      // Strike: [10], total pending until two more rolls exist
      PutAt(frameScores', frame', FrameAt(scores, i));
      frameScores' := Put(frameScores', frame', FrameAt(scores, i));
      KeepStrike(scores, i, frame, frameScores, whole);
      frame' := frame' + 1;
      roll' := 0;
    } else if roll' == 1 && frame' < 9 {
      // Second roll: a spare (pending until one more roll exists) or an open frame
      PutAt(frameScores', frame', FrameAt(scores, i - 1));
      frameScores' := Put(frameScores', frame', FrameAt(scores, i - 1));
      KeepPair(scores, i, frame, frameScores, whole);
      frame' := frame' + 1;
      roll' := 0;
    } else {
      var entry := frameScores'[frame'].(rolls := frameScores'[frame'].rolls + [scores[i]]);
      assert entry == FrameScore([scores[i]], None);
      PutAt(frameScores', frame', entry);
      frameScores' := Put(frameScores', frame', entry);
      KeepFirst(scores, i, frame, frameScores, whole);
      roll' := roll' + 1;
    }
  }

  /** getFrameScores(scores), written as entryway.js writes it: one left-to-right
      pass with a frame index and a roll counter. */
  method GetFrameScores(scores: seq<int>) returns (frameScores: seq<FrameScore>)
    ensures frameScores == FrameScoresOf(scores)
  {
    ghost var whole := FrameScoresOf(scores);
    var frame: nat := 0;
    var roll := 0;
    frameScores := [];
    var i := 0;
    while i < |scores|
      invariant ScanInvariant(scores, whole, i, frame, roll, frameScores)
      decreases |scores| - i
    {
      var done;
      frameScores, frame, roll, done := ScanRoll(scores, whole, i, frame, roll, frameScores);
      if done {
        return;
      }
      i := i + 1;
    }
    if roll == 1 {
      SplitLast(frameScores);
      StepLoneRoll(scores, frameScores[..frame], frame, whole);
    }
  }

  /* ---------------------------------------------------------------------- */
  /* getTotalScore / getFrameScore                                           */
  /* ---------------------------------------------------------------------- */

  /** The sum of the known frame totals; a pending frame adds nothing. */
  function ResolvedSum(fs: seq<FrameScore>): int {
    if |fs| == 0 then 0 else fs[0].total.GetOr(0) + ResolvedSum(fs[1..])
  }

  /** Every frame of fs has a known total. */
  predicate AllResolved(fs: seq<FrameScore>) {
    forall j :: 0 <= j < |fs| ==> fs[j].total.Some?
  }

  /** The loop of getTotalScore, from 1-based frame i on, with the running
      total so far: a pending frame aborts a single-frame query and is
      skipped in the whole-game total. */
  function RunningTotal(fs: seq<FrameScore>, i: nat, frameNum: int, isGameTotal: bool, runningTotal: int): (r: Option<int>)
    requires 1 <= i <= |fs| + 1
    ensures var stop := if frameNum < i then i - 1 else Min(frameNum, |fs|);
      && (isGameTotal ==> r == Some(runningTotal + ResolvedSum(fs[i - 1..stop])))
      && (!isGameTotal ==> (r.Some? <==> AllResolved(fs[i - 1..stop])))
      && (!isGameTotal && r.Some? ==> r.value == runningTotal + ResolvedSum(fs[i - 1..stop]))
    decreases |fs| + 1 - i
  {
    if !(i <= frameNum && i - 1 < |fs|) then
      Some(runningTotal)
    else
      var stop := Min(frameNum, |fs|);
      assert fs[i - 1..stop][1..] == fs[i..stop];
      assert fs[i - 1..stop][0] == fs[i - 1];
      if fs[i - 1].total.Some? then
        RunningTotal(fs, i + 1, frameNum, isGameTotal, runningTotal + fs[i - 1].total.value)
      else if !isGameTotal then
        None
      else
        RunningTotal(fs, i + 1, frameNum, isGameTotal, runningTotal)
  }

  /** getTotalScore(player, frameNum) on the player's ledger; frameNum 0
      stands for the call without a frame number (the whole game). */
  function TotalScore(scores: seq<int>, frameNum: int): (r: Option<int>)
    ensures var fs := FrameScoresOf(scores);
      && (frameNum == 0 ==> r == Some(ResolvedSum(fs)))
      && (frameNum < 0 ==> r == Some(0))
      && (frameNum > 0 ==> (r.Some? <==> frameNum <= |fs| && AllResolved(fs[..frameNum])))
      && (frameNum > 0 && r.Some? ==> r.value == ResolvedSum(fs[..frameNum]))
  {
    var frameScores := FrameScoresOf(scores);
    assert frameScores[0..|frameScores|] == frameScores;
    if frameNum == 0 then
      RunningTotal(frameScores, 1, 10, true, 0)
    else if frameNum - 1 >= |frameScores| then
      // a frame that is not listed yet
      None
    else
      assert frameNum > 0 ==> frameScores[0..frameNum] == frameScores[..frameNum];
      RunningTotal(frameScores, 1, frameNum, false, 0)
  }

  /** The rolls a frame box shows, in order. */
  function Shown(v: FrameView): seq<int> {
    (if v.first.Some? then [v.first.value] else [])
      + (if v.second.Some? then [v.second.value] else [])
      + (if v.third.Some? then [v.third.value] else [])
  }

  /** getFrameScore(player, frameNum): None outside frames 1-10; otherwise the
      listed frame's rolls with the CUMULATIVE total through that frame. */
  function GetFrameScore(scores: seq<int>, frameNum: int): (r: Option<FrameView>)
    ensures r.None? <==> frameNum < 1 || frameNum > 10
    ensures r.Some? && frameNum <= |FrameScoresOf(scores)| ==>
      var rs := FrameScoresOf(scores)[frameNum - 1].rolls;
      && Shown(r.value) == rs
      && r.value.first == (if |rs| > 0 then Some(rs[0]) else None)
      && r.value.second == (if |rs| > 1 then Some(rs[1]) else None)
      && r.value.third == (if |rs| > 2 then Some(rs[2]) else None)
      && r.value.total == TotalScore(scores, frameNum)
    ensures r.Some? && frameNum > |FrameScoresOf(scores)| ==> r.value == FrameView(None, None, None, None)
  {
    if frameNum < 1 || frameNum > 10 then None
    else
      var frameScores := FrameScoresOf(scores);
      if frameNum - 1 < |frameScores| then
        var fs := frameScores[frameNum - 1];
        var first := if |fs.rolls| > 0 then Some(fs.rolls[0]) else None;
        var second := if |fs.rolls| > 1 then Some(fs.rolls[1]) else None;
        var third := if |fs.rolls| > 2 then Some(fs.rolls[2]) else None;
        var v := FrameView(first, second, third, TotalScore(scores, frameNum));
        assert Shown(v) == fs.rolls by {
          RollCounts(scores, frameNum - 1);
          if |fs.rolls| == 1 { assert fs.rolls == [fs.rolls[0]]; }
          else if |fs.rolls| == 2 { assert fs.rolls == [fs.rolls[0], fs.rolls[1]]; }
          else { assert fs.rolls == [fs.rolls[0], fs.rolls[1], fs.rolls[2]]; }
        }
        Some(v)
      else
        Some(FrameView(None, None, None, None))
  }

  /* ---------------------------------------------------------------------- */
  /* Properties of the breakdown                                             */
  /* ---------------------------------------------------------------------- */

  lemma {:induction false} RollCountsFrom(s: seq<int>, i: nat, k: nat, m: nat)
    requires i <= |s| && k <= 9 && m < |FramesFrom(s, i, k)|
    ensures 1 <= |FramesFrom(s, i, k)[m].rolls| <= 3
    decreases |s| - i
  {
    if m > 0 {
      var i' := i + |FrameAt(s, i).rolls|;
      RollCountsFrom(s, i', k + 1, m - 1);
    }
  }

  /** Every frame box shows one to three rolls. */
  lemma RollCounts(s: seq<int>, k: nat)
    requires k < |FrameScoresOf(s)|
    ensures 1 <= |FrameScoresOf(s)[k].rolls| <= 3
  {
    RollCountsFrom(s, 0, 0, k);
  }

  /** The rolls of a breakdown, frame after frame. */
  function Flatten(fs: seq<FrameScore>): seq<int> {
    if |fs| == 0 then [] else fs[0].rolls + Flatten(fs[1..])
  }

  /** Ten-pin rules for the frame with 0-based index k whose first roll is
      ledger entry j. Before the tenth, a frame is a strike (one roll of
      10) or takes two rolls, one while its second is still missing; a
      frame whose rolls down all ten pins (strike or spare) scores the pins
      of the three rolls from its first, any other its two, pending (None)
      while one of those rolls is missing. The tenth frame takes up to three
      rolls and sums them once two exist. */
  ghost predicate ScoredByRules(s: seq<int>, j: nat, k: nat, f: FrameScore)
    requires j < |s|
  {
    && (k == 9 ==>
          && f.rolls == s[j..Min(j + 3, |s|)]
          && f.total == (if |f.rolls| >= 2 then Some(Sum(f.rolls)) else None))
    && (k < 9 ==>
          && |f.rolls| == (if s[j] == 10 || j + 1 == |s| then 1 else 2)
          && f.rolls == s[j..j + |f.rolls|]
          && var counted := if Sum(f.rolls) == 10 then 3 else 2;
             f.total == (if j + counted <= |s| then Some(Sum(s[j..j + counted])) else None))
  }

  /** Sum of a slice of two or three ledger entries. */
  lemma SumPairTriple(s: seq<int>, j: nat)
    ensures j + 2 <= |s| ==> Sum(s[j..j + 2]) == s[j] + s[j + 1]
    ensures j + 3 <= |s| ==> Sum(s[j..j + 3]) == s[j] + s[j + 1] + s[j + 2]
  {
    if j + 2 <= |s| {
      assert s[j..j + 2] == [s[j], s[j + 1]];
      assert Sum([s[j], s[j + 1]]) == s[j] + Sum([s[j + 1]]);
    }
    if j + 3 <= |s| {
      assert s[j..j + 3] == [s[j], s[j + 1], s[j + 2]];
      assert Sum([s[j], s[j + 1], s[j + 2]]) == s[j] + Sum([s[j + 1], s[j + 2]]);
      assert Sum([s[j + 1], s[j + 2]]) == s[j + 1] + Sum([s[j + 2]]);
    }
  }

  lemma FrameAtRules(s: seq<int>, i: nat, k: nat)
    requires i < |s| && k < 9
    ensures i + |FrameAt(s, i).rolls| <= |s|
    ensures s[i..i + |FrameAt(s, i).rolls|] == FrameAt(s, i).rolls
    ensures ScoredByRules(s, i, k, FrameAt(s, i))
  {
    SumPairTriple(s, i);
    if s[i] == 10 {
      assert s[i..i + 1] == [s[i]];
      assert Sum([10]) == 10;
    } else if i + 1 < |s| {
      assert s[i..i + 2] == [s[i], s[i + 1]];
      assert Sum([s[i], s[i + 1]]) == s[i] + Sum([s[i + 1]]);
    } else {
      assert s[i..i + 1] == [s[i]];
      assert Sum([s[i]]) == s[i];
    }
  }

  lemma TenthRules(s: seq<int>, i: nat)
    requires i < |s|
    ensures ScoredByRules(s, i, 9, TenthFrame(s, i))
  {
    var f := TenthFrame(s, i);
    if i + 2 < |s| {
      assert s[i..i + 3] == [s[i], s[i + 1], s[i + 2]];
      assert Sum(f.rolls) == s[i] + Sum([s[i + 1], s[i + 2]]);
      assert Sum([s[i + 1], s[i + 2]]) == s[i + 1] + Sum([s[i + 2]]);
    } else if i + 1 < |s| {
      assert s[i..|s|] == [s[i], s[i + 1]];
      assert Sum(f.rolls) == s[i] + Sum([s[i + 1]]);
    } else {
      assert s[i..|s|] == [s[i]];
    }
  }

  lemma FlattenCons(h: FrameScore, t: seq<FrameScore>)
    ensures Flatten([h] + t) == h.rolls + Flatten(t)
  {
    assert ([h] + t)[1..] == t;
  }

  /** A frame before the tenth is followed by the breakdown of the rest. */
  lemma FramesCons(s: seq<int>, i: nat, k: nat)
    requires i < |s| && k < 9
    ensures i + |FrameAt(s, i).rolls| <= |s|
    ensures FramesFrom(s, i, k) == [FrameAt(s, i)] + FramesFrom(s, i + |FrameAt(s, i).rolls|, k + 1)
    ensures s[i..i + |FrameAt(s, i).rolls|] == FrameAt(s, i).rolls
  {
    FrameAtRules(s, i, k);
  }

  lemma FlattenSnoc(fs: seq<FrameScore>, f: FrameScore)
    ensures Flatten(fs + [f]) == Flatten(fs) + f.rolls
  {
    if |fs| > 0 {
      assert (fs + [f])[1..] == fs[1..] + [f];
      FlattenSnoc(fs[1..], f);
    }
  }

  /** The breakdown after its first m frames is the breakdown of the rest of
      the ledger, whose first m frames took exactly the rolls before it. */
  lemma {:induction false} FrameOffset(s: seq<int>, m: nat)
    requires m <= 9 && m <= |FrameScoresOf(s)|
    ensures var fs := FrameScoresOf(s);
      var j := |Flatten(fs[..m])|;
      && j <= |s|
      && s[..j] == Flatten(fs[..m])
      && fs[m..] == FramesFrom(s, j, m)
  {
    var fs := FrameScoresOf(s);
    if m == 0 {
      assert fs[..0] == [];
    } else {
      FrameOffset(s, m - 1);
      var j' := |Flatten(fs[..m - 1])|;
      assert fs[m - 1..] == FramesFrom(s, j', m - 1);
      FramesCons(s, j', m - 1);
      var f := FrameAt(s, j');
      var j := j' + |f.rolls|;
      assert fs[m - 1] == f;
      assert fs[m..] == fs[m - 1..][1..];
      assert fs[..m] == fs[..m - 1] + [f];
      FlattenSnoc(fs[..m - 1], f);
      assert s[..j] == s[..j'] + s[j'..j];
    }
  }

  /** Frame k of the breakdown opens at the ledger entry right after the rolls
      of the frames before it, and is scored by the ten-pin rules there. */
  lemma FrameRules(s: seq<int>, k: nat)
    requires k < |FrameScoresOf(s)|
    ensures k <= 9
    ensures var fs := FrameScoresOf(s);
      && |Flatten(fs[..k])| < |s|
      && Flatten(fs[..k]) == s[..|Flatten(fs[..k])|]
      && ScoredByRules(s, |Flatten(fs[..k])|, k, fs[k])
  {
    var fs := FrameScoresOf(s);
    if k < 9 {
      FrameOffset(s, k);
      var j := |Flatten(fs[..k])|;
      assert fs[k..] == FramesFrom(s, j, k);
      FrameAtRules(s, j, k);
    } else {
      FrameOffset(s, 9);
      var j := |Flatten(fs[..9])|;
      assert fs[9..] == FramesFrom(s, j, 9);
      TenthRules(s, j);
    }
  }

  lemma {:induction false} NoRollLostFrom(s: seq<int>, i: nat, k: nat)
    requires i <= |s| && k <= 9
    requires |FramesFrom(s, i, k)| + k < 10
    ensures Flatten(FramesFrom(s, i, k)) == s[i..]
    decreases |s| - i
  {
    if i < |s| {
      assert k < 9;
      FramesCons(s, i, k);
      var h := FrameAt(s, i);
      var i' := i + |h.rolls|;
      var rest := FramesFrom(s, i', k + 1);
      assert |rest| + (k + 1) < 10;
      NoRollLostFrom(s, i', k + 1);
      FlattenCons(h, rest);
      assert Flatten(FramesFrom(s, i, k)) == s[i..i'] + s[i'..];
      assert s[i..] == s[i..i'] + s[i'..];
    }
  }

  /** Before the tenth frame opens, the breakdown accounts for every roll of
      the ledger, in order. */
  lemma NoRollLost(s: seq<int>)
    requires |FrameScoresOf(s)| < 10
    ensures Flatten(FrameScoresOf(s)) == s
  {
    NoRollLostFrom(s, 0, 0);
    assert s[0..] == s;
  }

  lemma {:induction false} TenthFramePosition(s: seq<int>, i: nat, r: nat)
    requires i <= |s|
    ensures CurrentFrameFrom(s, i, Position(10, r)) == Position(10, r + |s| - i)
    decreases |s| - i
  {
    if i < |s| {
      TenthFramePosition(s, i + 1, r + 1);
    }
  }

  /** The breakdown r, whose first frame has 0-based index k, ends where the
      scan position q says: as many entries as frames begun, and in the tenth
      frame as many rolls as the tenth frame holds. */
  ghost predicate CountsMatch(q: Position, k: nat, r: seq<FrameScore>) {
    && |r| + k == (if q.roll == 0 then q.frame - 1 else q.frame)
    && (q.frame == 10 && q.roll >= 1 ==>
          |r| + k == 10 && |r| > 0 && |r[|r| - 1].rolls| == Min(q.roll, 3))
  }

  lemma CountsMatchCons(q: Position, k: nat, h: FrameScore, r: seq<FrameScore>)
    requires k < 9 && CountsMatch(q, k + 1, r)
    ensures CountsMatch(q, k, [h] + r)
  {
    if q.frame == 10 && q.roll >= 1 {
      assert ([h] + r)[|r|] == r[|r| - 1];
    }
  }

  /* The cases of FramesMatchPositionFrom, one lemma each. */

  lemma MatchTenth(s: seq<int>, i: nat)
    requires i < |s|
    ensures CountsMatch(CurrentFrameFrom(s, i, Position(10, 0)), 9, FramesFrom(s, i, 9))
  {
    TenthFramePosition(s, i, 0);
    assert FramesFrom(s, i, 9) == [TenthFrame(s, i)];
  }

  lemma MatchStrike(s: seq<int>, i: nat, k: nat)
    requires i < |s| && k < 9 && s[i] == 10
    requires CountsMatch(CurrentFrameFrom(s, i + 1, Position(k + 2, 0)), k + 1, FramesFrom(s, i + 1, k + 1))
    ensures CountsMatch(CurrentFrameFrom(s, i, Position(k + 1, 0)), k, FramesFrom(s, i, k))
  {
    FramesCons(s, i, k);
    assert CurrentFrameFrom(s, i, Position(k + 1, 0)) == CurrentFrameFrom(s, i + 1, Position(k + 2, 0));
    CountsMatchCons(CurrentFrameFrom(s, i, Position(k + 1, 0)), k, FrameAt(s, i), FramesFrom(s, i + 1, k + 1));
  }

  lemma MatchPair(s: seq<int>, i: nat, k: nat)
    requires i + 1 < |s| && k < 9 && s[i] != 10
    requires CountsMatch(CurrentFrameFrom(s, i + 2, Position(k + 2, 0)), k + 1, FramesFrom(s, i + 2, k + 1))
    ensures CountsMatch(CurrentFrameFrom(s, i, Position(k + 1, 0)), k, FramesFrom(s, i, k))
  {
    FramesCons(s, i, k);
    var q := CurrentFrameFrom(s, i, Position(k + 1, 0));
    assert q == CurrentFrameFrom(s, i + 1, Position(k + 1, 1));
    assert q == CurrentFrameFrom(s, i + 2, Position(k + 2, 0));
    CountsMatchCons(q, k, FrameAt(s, i), FramesFrom(s, i + 2, k + 1));
  }

  lemma MatchLone(s: seq<int>, i: nat, k: nat)
    requires i + 1 == |s| && k < 9 && s[i] != 10
    ensures CountsMatch(CurrentFrameFrom(s, i, Position(k + 1, 0)), k, FramesFrom(s, i, k))
  {
    FramesCons(s, i, k);
    assert CurrentFrameFrom(s, i, Position(k + 1, 0)) == CurrentFrameFrom(s, i + 1, Position(k + 1, 1));
    assert FramesFrom(s, i + 1, k + 1) == [];
  }

  lemma {:induction false} FramesMatchPositionFrom(s: seq<int>, i: nat, k: nat)
    requires i <= |s| && k <= 9
    ensures CountsMatch(CurrentFrameFrom(s, i, Position(k + 1, 0)), k, FramesFrom(s, i, k))
    decreases |s| - i
  {
    if i == |s| {
    } else if k == 9 {
      MatchTenth(s, i);
    } else if s[i] == 10 {
      FramesMatchPositionFrom(s, i + 1, k + 1);
      MatchStrike(s, i, k);
    } else if i + 1 < |s| {
      FramesMatchPositionFrom(s, i + 2, k + 1);
      MatchPair(s, i, k);
    } else {
      MatchLone(s, i, k);
    }
  }

  /** getCurrentFrame and getFrameScores agree: the breakdown lists every frame
      the ledger has begun, and once frame 10 has r rolls its entry shows the
      first min(r, 3) of them. */
  lemma FramesMatchPosition(s: seq<int>)
    ensures var q := CurrentFrame(s);
      var fs := FrameScoresOf(s);
      && |fs| == (if q.roll == 0 then q.frame - 1 else q.frame)
      && (q.frame == 10 && q.roll >= 1 ==> |fs| == 10 && |fs[9].rolls| == Min(q.roll, 3))
  {
    FramesMatchPositionFrom(s, 0, 0);
  }

  /** Once frame 10 has had two rolls, its entry shows exactly the last two
      ledger entries. */
  lemma TenthFrameTail(s: seq<int>)
    requires CurrentFrame(s) == Position(10, 2)
    ensures |s| >= 2 && |FrameScoresOf(s)| == 10
    ensures FrameScoresOf(s)[9].rolls == [s[|s| - 2], s[|s| - 1]]
  {
    FramesMatchPosition(s);
    FrameRules(s, 9);
    var fs := FrameScoresOf(s);
    var j := |Flatten(fs[..9])|;
    assert fs[9].rolls == s[j..Min(j + 3, |s|)];
    assert j == |s| - 2;
  }

  /* ---------------------------------------------------------------------- */
  /* Worked examples                                                         */
  /* ---------------------------------------------------------------------- */

  /** A strike takes the next two rolls as its bonus: [10, 5, 2] scores 17, 7. */
  lemma StrikeBonusExample()
    ensures FrameScoresOf([10, 5, 2]) == [FrameScore([10], Some(17)), FrameScore([5, 2], Some(7))]
    ensures TotalScore([10, 5, 2], 2) == Some(24)
    ensures GetFrameScore([10, 5, 2], 2) == Some(FrameView(Some(5), Some(2), None, Some(24)))
  {
  }

  /** A spare takes the next roll as its bonus: [5, 5, 3] scores 13 first. */
  lemma SpareBonusExample()
    ensures FrameScoresOf([5, 5, 3])[0] == FrameScore([5, 5], Some(13))
  {
  }

  /** A lone strike is pending, not 10 and not 0; the game total skips it. */
  lemma PendingStrikeExample()
    ensures FrameScoresOf([10]) == [FrameScore([10], None)]
    ensures TotalScore([10], 1) == None
    ensures TotalScore([10], 0) == Some(0)
    ensures GetFrameScore([10], 1) == Some(FrameView(Some(10), None, None, None))
  {
  }

  /** Frames i..9 of a ledger of twelve strikes: each scores 30. */
  lemma {:induction false} StrikeRun(s: seq<int>, i: nat)
    requires |s| == 12 && forall j :: 0 <= j < 12 ==> s[j] == 10
    requires i <= 9
    ensures |FramesFrom(s, i, i)| == 10 - i
    ensures AllResolved(FramesFrom(s, i, i))
    ensures ResolvedSum(FramesFrom(s, i, i)) == 30 * (10 - i)
    decreases 9 - i
  {
    var r := FramesFrom(s, i, i);
    if i == 9 {
      assert r == [FrameScore([10, 10, 10], Some(30))];
      assert ResolvedSum(r) == 30 + ResolvedSum(r[1..]);
    } else {
      FramesCons(s, i, i);
      assert FrameAt(s, i) == FrameScore([10], Some(30));
      var rest := FramesFrom(s, i + 1, i + 1);
      StrikeRun(s, i + 1);
      assert r == [FrameScore([10], Some(30))] + rest;
      assert r[1..] == rest;
      assert ResolvedSum(r) == 30 + ResolvedSum(rest);
      forall j | 0 <= j < |r|
        ensures r[j].total.Some?
      {
        if j > 0 {
          assert r[j] == rest[j - 1];
        }
      }
    }
  }

  /** Twelve strikes make a perfect game of 300, and frame 10's cumulative
      total is 300 too. */
  lemma PerfectGame(s: seq<int>)
    requires |s| == 12 && forall j :: 0 <= j < 12 ==> s[j] == 10
    ensures TotalScore(s, 0) == Some(300)
    ensures TotalScore(s, 10) == Some(300)
  {
    StrikeRun(s, 0);
    var fs := FrameScoresOf(s);
    assert fs[..10] == fs;
  }
}
