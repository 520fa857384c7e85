/**
 The director: the score, the playing flag, and the per-frame step that reads
 the keyboard direction into the robot, moves the robot, resolves collisions
 with the falling objects, moves them, and rewrites the banner.

 Whether the cast hands the director a copy of the falling objects or the
 live list it removes from is not fixed by the director's code, and the two
 behave differently, so both are modelled (`Reading`). With a copy every
 object is visited and the end condition ranges over the objects present at
 the start of the frame; with the live list Python's iterator skips the object
 right after each removed one, and the end condition ranges over the
 objects that remain.
 */
module Directing {
  import opened Options
  import opened Decimal
  import opened Casting

  /** The director's own state: `_score` and `_is_playing`. */
  datatype Director = Director(score: int, isPlaying: bool)

  /** What a frame leaves behind: the director and the cast. */
  datatype Frame = Frame(director: Director, cast: Cast)

  /** `Director.__init__`: no points yet, and the game is on. */
  function NewDirector(): (d: Director)
    ensures d.score == 0
    ensures d.isPlaying
  {
    Director(0, true)
  }

  /** `_get_inputs`: the keyboard's direction becomes the robot's velocity. */
  function GetInputs(c: Cast, direction: Point): (r: Cast)
    ensures r.robot.velocity == direction
    ensures r.robot.(velocity := c.robot.velocity) == c.robot
    ensures r.banner == c.banner
    ensures r.objects == c.objects
  {
    c.(robot := c.robot.(velocity := direction))
  }

  /** Only the last direction read matters, and reading the current one changes nothing. */
  lemma GetInputsLastWins(c: Cast, first: Point, second: Point)
    ensures GetInputs(GetInputs(c, first), second) == GetInputs(c, second)
    ensures GetInputs(c, c.robot.velocity) == c
  {
  }

  // ---------------------------------------------------------------------------
  // Banner

  const ScorePrefix: string := "Score: "
  const GameOverPrefix: string := "GAME OVER. Final Score: "
  const GameOverFontSize: int := 32

  function ScoreText(score: int): string {
    ScorePrefix + IntToString(score)
  }

  function GameOverText(score: int): string {
    GameOverPrefix + IntToString(score)
  }

  /** Reads the score and the playing flag back from a banner text. */
  function DecodeBanner(t: string): Option<(int, bool)> {
    if GameOverPrefix <= t then
      match ParseInt(t[|GameOverPrefix|..])
      case Some(n) => Some((n, false))
      case None => None
    else if ScorePrefix <= t then
      match ParseInt(t[|ScorePrefix|..])
      case Some(n) => Some((n, true))
      case None => None
    else None
  }

  /** Both banner texts determine the score and whether play goes on. */
  lemma BannerTextsDecode(score: int)
    ensures DecodeBanner(ScoreText(score)) == Some((score, true))
    ensures DecodeBanner(GameOverText(score)) == Some((score, false))
  {
    var s := ScoreText(score);
    var g := GameOverText(score);
    assert s[0] != GameOverPrefix[0];
    assert s[|ScorePrefix|..] == IntToString(score);
    assert g[|GameOverPrefix|..] == IntToString(score);
    IntRoundTrip(score);
  }

  // ---------------------------------------------------------------------------
  // The collision loop

  /** How the cast hands out the falling objects: a copy, or its live list. */
  datatype Reading = Snapshot | LiveList

  /** What one frame does to one falling object. */
  datatype Fate = Removed | Kept(after: Actor)

  /** One pass of the loop body over an object it reaches. */
  function Visit(o: Actor, hit: Point, move: Mover, maxX: int, maxY: int): Fate {
    if o.position == hit then Removed else Kept(MoveNext(o, move, maxX, maxY))
  }

  /** Iterating over a copy: every object is reached. */
  function SnapshotFates(objs: seq<Actor>, hit: Point, move: Mover, maxX: int, maxY: int): (f: seq<Fate>)
    ensures |f| == |objs|
    ensures forall i :: 0 <= i < |objs| ==> f[i] == Visit(objs[i], hit, move, maxX, maxY)
  {
    if objs == [] then []
    else [Visit(objs[0], hit, move, maxX, maxY)] + SnapshotFates(objs[1..], hit, move, maxX, maxY)
  }

  /**
   Iterating over the live list: the object just after a removed one slides
   into the removed one's slot and is neither compared nor moved.
   */
  function LiveFates(objs: seq<Actor>, hit: Point, move: Mover, maxX: int, maxY: int): (f: seq<Fate>)
    ensures |f| == |objs|
  {
    if objs == [] then []
    else if objs[0].position != hit then
      [Kept(MoveNext(objs[0], move, maxX, maxY))] + LiveFates(objs[1..], hit, move, maxX, maxY)
    else if |objs| == 1 then [Removed]
    else [Removed, Kept(objs[1])] + LiveFates(objs[2..], hit, move, maxX, maxY)
  }

  /** Whether the loop removed the object just before position `i`. */
  predicate FollowsRemoval(f: seq<Fate>, i: int) {
    0 < i <= |f| && f[i - 1].Removed?
  }

  /** Each object is skipped if the one before it was removed, and visited otherwise. */
  predicate LiveVisits(objs: seq<Actor>, f: seq<Fate>, hit: Point, move: Mover, maxX: int, maxY: int) {
    && |f| == |objs|
    && forall i :: 0 <= i < |f| ==>
         f[i] == (if FollowsRemoval(f, i) then Kept(objs[i]) else Visit(objs[i], hit, move, maxX, maxY))
  }

  lemma {:induction false} LiveFatesVisit(objs: seq<Actor>, hit: Point, move: Mover, maxX: int, maxY: int)
    ensures LiveVisits(objs, LiveFates(objs, hit, move, maxX, maxY), hit, move, maxX, maxY)
    decreases |objs|
  {
    var f := LiveFates(objs, hit, move, maxX, maxY);
    if objs == [] {
    } else if objs[0].position != hit {
      var rest := objs[1..];
      var tail := LiveFates(rest, hit, move, maxX, maxY);
      assert f == [Kept(MoveNext(objs[0], move, maxX, maxY))] + tail;
      LiveFatesVisit(rest, hit, move, maxX, maxY);
      forall i | 0 <= i < |f|
        ensures f[i] == (if FollowsRemoval(f, i) then Kept(objs[i]) else Visit(objs[i], hit, move, maxX, maxY))
      {
        if 0 < i {
          assert f[i] == tail[i - 1] && objs[i] == rest[i - 1];
          assert FollowsRemoval(f, i) == FollowsRemoval(tail, i - 1);
        }
      }
    } else if |objs| == 1 {
      assert f == [Removed];
    } else {
      var rest := objs[2..];
      var tail := LiveFates(rest, hit, move, maxX, maxY);
      assert f == [Removed, Kept(objs[1])] + tail;
      LiveFatesVisit(rest, hit, move, maxX, maxY);
      forall i | 0 <= i < |f|
        ensures f[i] == (if FollowsRemoval(f, i) then Kept(objs[i]) else Visit(objs[i], hit, move, maxX, maxY))
      {
        if 1 < i {
          assert f[i] == tail[i - 2] && objs[i] == rest[i - 2];
          assert FollowsRemoval(f, i) == FollowsRemoval(tail, i - 2);
        }
      }
    }
  }

  function Fates(reading: Reading, objs: seq<Actor>, hit: Point, move: Mover, maxX: int, maxY: int): seq<Fate> {
    match reading
    case Snapshot => SnapshotFates(objs, hit, move, maxX, maxY)
    case LiveList => LiveFates(objs, hit, move, maxX, maxY)
  }

  /**
   Python's loop over the live list, step by step: `k` is the iterator's
   index; a removal shortens the list under it; a move replaces the object
   in place. The result is the final list and the points collected.
   */
  function LiveLoop(list: seq<Actor>, k: nat, hit: Point, move: Mover, maxX: int, maxY: int): (seq<Actor>, int)
    decreases |list| - k
  {
    if k >= |list| then (list, 0)
    else if list[k].position == hit then
      var after := LiveLoop(list[..k] + list[k + 1..], k + 1, hit, move, maxX, maxY);
      (after.0, after.1 + CalculatePoints(list[k]))
    else
      LiveLoop(list[..k] + [MoveNext(list[k], move, maxX, maxY)] + list[k + 1..], k + 1, hit, move, maxX, maxY)
  }

  /** The objects still in the group after the loop, in their order. */
  function Survivors(f: seq<Fate>): seq<Actor> {
    if f == [] then []
    else if f[0].Kept? then [f[0].after] + Survivors(f[1..])
    else Survivors(f[1..])
  }

  /** The objects the loop removed, in their order. */
  function Consumed(objs: seq<Actor>, f: seq<Fate>): seq<Actor>
    requires |objs| == |f|
  {
    if f == [] then []
    else if f[0].Removed? then [objs[0]] + Consumed(objs[1..], f[1..])
    else Consumed(objs[1..], f[1..])
  }

  /** Every kept object is the original one, moved or not. */
  predicate Faithful(objs: seq<Actor>, f: seq<Fate>, move: Mover, maxX: int, maxY: int) {
    && |f| == |objs|
    && forall i :: 0 <= i < |f| && f[i].Kept? ==>
         f[i].after == objs[i] || f[i].after == MoveNext(objs[i], move, maxX, maxY)
  }

  /** Only objects at the hit position are removed. */
  predicate OnlyHitsRemoved(objs: seq<Actor>, f: seq<Fate>, hit: Point) {
    && |f| == |objs|
    && forall i :: 0 <= i < |f| && f[i].Removed? ==> objs[i].position == hit
  }

  /** `all(text == 'O')`, vacuously true of an empty group. */
  predicate AllPenalty(s: seq<Actor>) {
    forall i :: 0 <= i < |s| ==> s[i].text == PenaltyGlyph
  }

  /** What `all(...)` ranges over: the copy, or the live list after the loop. */
  function EndView(reading: Reading, objs: seq<Actor>, f: seq<Fate>): seq<Actor> {
    match reading
    case Snapshot => objs
    case LiveList => Survivors(f)
  }

  /** Under either reading, the loop keeps or removes each object in place. */
  lemma FatesSound(reading: Reading, objs: seq<Actor>, hit: Point, move: Mover, maxX: int, maxY: int)
    ensures Faithful(objs, Fates(reading, objs, hit, move, maxX, maxY), move, maxX, maxY)
    ensures OnlyHitsRemoved(objs, Fates(reading, objs, hit, move, maxX, maxY), hit)
  {
    var f := Fates(reading, objs, hit, move, maxX, maxY);
    if reading.LiveList? {
      LiveFatesVisit(objs, hit, move, maxX, maxY);
    }
    forall i | 0 <= i < |f|
      ensures f[i].Kept? ==> f[i].after == objs[i] || f[i].after == MoveNext(objs[i], move, maxX, maxY)
      ensures f[i].Removed? ==> objs[i].position == hit
    {
      if reading.LiveList? && FollowsRemoval(f, i) {
        assert f[i] == Kept(objs[i]);
      } else {
        assert f[i] == Visit(objs[i], hit, move, maxX, maxY);
      }
    }
  }

  /** Splitting a group into removed and kept objects loses no object and no point. */
  lemma {:induction false} PartitionConserves(objs: seq<Actor>, f: seq<Fate>, move: Mover, maxX: int, maxY: int)
    requires Faithful(objs, f, move, maxX, maxY)
    ensures |objs| == |Consumed(objs, f)| + |Survivors(f)|
    ensures PointsOf(objs) == PointsOf(Consumed(objs, f)) + PointsOf(Survivors(f))
  {
    if f != [] {
      assert Faithful(objs[1..], f[1..], move, maxX, maxY) by {
        forall i | 0 <= i < |f[1..]| && f[1..][i].Kept?
          ensures f[1..][i].after == objs[1..][i] || f[1..][i].after == MoveNext(objs[1..][i], move, maxX, maxY)
        {
          assert f[1..][i] == f[i + 1];
        }
      }
      PartitionConserves(objs[1..], f[1..], move, maxX, maxY);
      assert PointsOf(objs) == CalculatePoints(objs[0]) + PointsOf(objs[1..]);
      if f[0].Removed? {
        PointsOfAppend([objs[0]], Consumed(objs[1..], f[1..]));
      } else {
        PointsOfAppend([f[0].after], Survivors(f[1..]));
      }
    }
  }

  /** Every removed object stood at the hit position. */
  lemma {:induction false} ConsumedAtHit(objs: seq<Actor>, f: seq<Fate>, hit: Point)
    requires OnlyHitsRemoved(objs, f, hit)
    ensures forall j :: 0 <= j < |Consumed(objs, f)| ==> Consumed(objs, f)[j].position == hit
  {
    if f != [] {
      assert OnlyHitsRemoved(objs[1..], f[1..], hit) by {
        forall i | 0 <= i < |f[1..]| && f[1..][i].Removed?
          ensures objs[1..][i].position == hit
        {
          assert f[1..][i] == f[i + 1];
        }
      }
      ConsumedAtHit(objs[1..], f[1..], hit);
    }
  }

  /** If only penalty objects were there, only penalty objects remain. */
  lemma {:induction false} SurvivorsOfPenalty(objs: seq<Actor>, f: seq<Fate>, move: Mover, maxX: int, maxY: int)
    requires Faithful(objs, f, move, maxX, maxY)
    ensures AllPenalty(objs) ==> AllPenalty(Survivors(f))
  {
    if f != [] && AllPenalty(objs) {
      assert AllPenalty(objs[1..]);
      assert Faithful(objs[1..], f[1..], move, maxX, maxY) by {
        forall i | 0 <= i < |f[1..]| && f[1..][i].Kept?
          ensures f[1..][i].after == objs[1..][i] || f[1..][i].after == MoveNext(objs[1..][i], move, maxX, maxY)
        {
          assert f[1..][i] == f[i + 1];
        }
      }
      SurvivorsOfPenalty(objs[1..], f[1..], move, maxX, maxY);
      if f[0].Kept? {
        assert f[0].after.text == objs[0].text;
      }
    }
  }

  /** The fates of a live-list loop whose first object is missed. */
  lemma LiveFatesAfterMiss(rest: seq<Actor>, hit: Point, move: Mover, maxX: int, maxY: int)
    requires rest != [] && rest[0].position != hit
    ensures var f := LiveFates(rest, hit, move, maxX, maxY);
      var f' := LiveFates(rest[1..], hit, move, maxX, maxY);
      && Survivors(f) == [MoveNext(rest[0], move, maxX, maxY)] + Survivors(f')
      && Consumed(rest, f) == Consumed(rest[1..], f')
  {
    var f := LiveFates(rest, hit, move, maxX, maxY);
    var f' := LiveFates(rest[1..], hit, move, maxX, maxY);
    assert f[1..] == f';
  }

  /** The fates of a live-list loop whose first object is hit, with another after it. */
  lemma LiveFatesAfterHit(rest: seq<Actor>, hit: Point, move: Mover, maxX: int, maxY: int)
    requires 2 <= |rest| && rest[0].position == hit
    ensures var f := LiveFates(rest, hit, move, maxX, maxY);
      var f' := LiveFates(rest[2..], hit, move, maxX, maxY);
      && Survivors(f) == [rest[1]] + Survivors(f')
      && PointsOf(Consumed(rest, f)) == CalculatePoints(rest[0]) + PointsOf(Consumed(rest[2..], f'))
  {
    var f := LiveFates(rest, hit, move, maxX, maxY);
    var f' := LiveFates(rest[2..], hit, move, maxX, maxY);
    assert f[1..] == [Kept(rest[1])] + f';
    assert f[1..][1..] == f';
    assert rest[1..][1..] == rest[2..];
    assert Consumed(rest, f) == [rest[0]] + Consumed(rest[2..], f');
    PointsOfAppend([rest[0]], Consumed(rest[2..], f'));
    assert PointsOf([rest[0]]) == CalculatePoints(rest[0]) + PointsOf([]);
  }

  /** The live-list loop, started at the first of `rest` after `done`, ends as `LiveFates` says. */
  predicate LoopAgrees(done: seq<Actor>, rest: seq<Actor>, hit: Point, move: Mover, maxX: int, maxY: int) {
    var f := LiveFates(rest, hit, move, maxX, maxY);
    LiveLoop(done + rest, |done|, hit, move, maxX, maxY) == (done + Survivors(f), PointsOf(Consumed(rest, f)))
  }

  /** The step-by-step live-list loop computes exactly what `LiveFates` describes. */
  lemma {:induction false} LiveLoopMatchesFates(done: seq<Actor>, rest: seq<Actor>, hit: Point, move: Mover, maxX: int, maxY: int)
    ensures LoopAgrees(done, rest, hit, move, maxX, maxY)
    decreases |rest|, 1
  {
    if rest == [] {
      assert done + rest == done;
    } else if rest[0].position != hit {
      LiveLoopAfterMiss(done, rest, hit, move, maxX, maxY);
    } else if |rest| == 1 {
      var list := done + rest;
      var k := |done|;
      assert list[k] == rest[0];
      assert list[..k] + list[k + 1..] == done;
      var f := LiveFates(rest, hit, move, maxX, maxY);
      assert f == [Removed];
      assert Consumed(rest, f) == [rest[0]];
      assert PointsOf([rest[0]]) == CalculatePoints(rest[0]) + PointsOf([]);
    } else {
      LiveLoopAfterHit(done, rest, hit, move, maxX, maxY);
    }
  }

  lemma {:induction false} LiveLoopAfterMiss(done: seq<Actor>, rest: seq<Actor>, hit: Point, move: Mover, maxX: int, maxY: int)
    requires rest != [] && rest[0].position != hit
    ensures LoopAgrees(done, rest, hit, move, maxX, maxY)
    decreases |rest|, 0
  {
    var list := done + rest;
    var k := |done|;
    var moved := MoveNext(rest[0], move, maxX, maxY);
    var done' := done + [moved];
    assert list[k] == rest[0];
    assert list[..k] + [moved] + list[k + 1..] == done' + rest[1..];
    LiveLoopMatchesFates(done', rest[1..], hit, move, maxX, maxY);
    LiveFatesAfterMiss(rest, hit, move, maxX, maxY);
    assert done' + Survivors(LiveFates(rest[1..], hit, move, maxX, maxY))
        == done + Survivors(LiveFates(rest, hit, move, maxX, maxY));
  }

  lemma {:induction false} LiveLoopAfterHit(done: seq<Actor>, rest: seq<Actor>, hit: Point, move: Mover, maxX: int, maxY: int)
    requires 2 <= |rest| && rest[0].position == hit
    ensures LoopAgrees(done, rest, hit, move, maxX, maxY)
    decreases |rest|, 0
  {
    var list := done + rest;
    var k := |done|;
    var done' := done + [rest[1]];
    assert list[k] == rest[0];
    assert list[..k] + list[k + 1..] == done' + rest[2..];
    LiveLoopMatchesFates(done', rest[2..], hit, move, maxX, maxY);
    LiveFatesAfterHit(rest, hit, move, maxX, maxY);
    assert done' + Survivors(LiveFates(rest[2..], hit, move, maxX, maxY))
        == done + Survivors(LiveFates(rest, hit, move, maxX, maxY));
  }

  // ---------------------------------------------------------------------------
  // The frame

  /**
   `_do_updates`: move the robot; remove the objects it now stands on,
   scoring them, and move the rest; write the score banner; end the game
   when `all(text == 'O')` holds; and then show the game-over banner.
   */
  function DoUpdates(d: Director, c: Cast, maxX: int, maxY: int, move: Mover, reading: Reading): (r: Frame)
    ensures r.cast.robot == MoveNext(c.robot, move, maxX, maxY)
    ensures !d.isPlaying ==> !r.director.isPlaying
    ensures r.director.score + PointsOf(r.cast.objects) == d.score + PointsOf(c.objects)
    ensures |r.cast.objects| <= |c.objects|
    ensures -(|c.objects| - |r.cast.objects|) <= r.director.score - d.score <= |c.objects| - |r.cast.objects|
    ensures r.cast.banner.text == if r.director.isPlaying then ScoreText(r.director.score) else GameOverText(r.director.score)
    ensures DecodeBanner(r.cast.banner.text) == Some((r.director.score, r.director.isPlaying))
    ensures r.cast.banner.fontSize == if r.director.isPlaying then c.banner.fontSize else GameOverFontSize
    ensures r.cast.banner == c.banner.(text := r.cast.banner.text, fontSize := r.cast.banner.fontSize)
    ensures d.isPlaying && !r.director.isPlaying ==> AllPenalty(r.cast.objects)
    ensures AllPenalty(c.objects) ==> !r.director.isPlaying
  {
    var robot := MoveNext(c.robot, move, maxX, maxY);
    var fates := Fates(reading, c.objects, robot.position, move, maxX, maxY);
    var score := d.score + PointsOf(Consumed(c.objects, fates));
    var playing := d.isPlaying && !AllPenalty(EndView(reading, c.objects, fates));
    var scored := c.banner.(text := ScoreText(score));
    var banner := if playing then scored else scored.(text := GameOverText(score), fontSize := GameOverFontSize);
    FatesSound(reading, c.objects, robot.position, move, maxX, maxY);
    PartitionConserves(c.objects, fates, move, maxX, maxY);
    BannerTextsDecode(score);
    SurvivorsOfPenalty(c.objects, fates, move, maxX, maxY);
    Frame(Director(score, playing), Cast(banner, robot, Survivors(fates)))
  }

  /** The frame's director and falling objects, in terms of the loop's fates. */
  lemma DoUpdatesByFates(d: Director, c: Cast, maxX: int, maxY: int, move: Mover, reading: Reading)
    ensures var r := DoUpdates(d, c, maxX, maxY, move, reading);
      var f := Fates(reading, c.objects, r.cast.robot.position, move, maxX, maxY);
      && |f| == |c.objects|
      && r.cast.objects == Survivors(f)
      && r.director.score == d.score + PointsOf(Consumed(c.objects, f))
      && (r.director.isPlaying <==> d.isPlaying && !AllPenalty(EndView(reading, c.objects, f)))
  {
  }

  /**
   Collisions under either reading: the group keeps exactly the objects the
   loop did not remove; every removed object stood where the robot moved to;
   an object anywhere else stays; and the score grows by exactly the points
   of the removed objects.
   */
  lemma StepScoresRemovedObjects(d: Director, c: Cast, maxX: int, maxY: int, move: Mover, reading: Reading)
    ensures var r := DoUpdates(d, c, maxX, maxY, move, reading);
      var hit := r.cast.robot.position;
      var f := Fates(reading, c.objects, hit, move, maxX, maxY);
      && |f| == |c.objects|
      && r.cast.objects == Survivors(f)
      && r.director.score == d.score + PointsOf(Consumed(c.objects, f))
      && (forall j :: 0 <= j < |Consumed(c.objects, f)| ==> Consumed(c.objects, f)[j].position == hit)
      && (forall i :: 0 <= i < |c.objects| && c.objects[i].position != hit ==> f[i].Kept?)
  {
    var hit := MoveNext(c.robot, move, maxX, maxY).position;
    DoUpdatesByFates(d, c, maxX, maxY, move, reading);
    FatesSound(reading, c.objects, hit, move, maxX, maxY);
    ConsumedAtHit(c.objects, Fates(reading, c.objects, hit, move, maxX, maxY), hit);
  }

  /**
   With a copy: an object is removed exactly when it stands where the robot
   moved to, and the game ends exactly when it was on and every object present
   at the start of the frame, removed or not, is a penalty object.
   */
  lemma SnapshotStep(d: Director, c: Cast, maxX: int, maxY: int, move: Mover)
    ensures var r := DoUpdates(d, c, maxX, maxY, move, Snapshot);
      var f := Fates(Snapshot, c.objects, r.cast.robot.position, move, maxX, maxY);
      && (forall i :: 0 <= i < |c.objects| ==> (f[i].Removed? <==> c.objects[i].position == r.cast.robot.position))
      && (r.director.isPlaying <==> d.isPlaying && !AllPenalty(c.objects))
  {
    DoUpdatesByFates(d, c, maxX, maxY, move, Snapshot);
  }

  /**
   With the live list: the frame is Python's index-based loop, and the game
   ends exactly when it was on and no object left in the group, if any, has a
   glyph other than the penalty glyph.
   */
  lemma LiveStep(d: Director, c: Cast, maxX: int, maxY: int, move: Mover)
    ensures var r := DoUpdates(d, c, maxX, maxY, move, LiveList);
      && LiveLoop(c.objects, 0, r.cast.robot.position, move, maxX, maxY) == (r.cast.objects, r.director.score - d.score)
      && (r.director.isPlaying <==> d.isPlaying && !AllPenalty(r.cast.objects))
  {
    var hit := MoveNext(c.robot, move, maxX, maxY).position;
    var f := LiveFates(c.objects, hit, move, maxX, maxY);
    DoUpdatesByFates(d, c, maxX, maxY, move, LiveList);
    LiveLoopMatchesFates([], c.objects, hit, move, maxX, maxY);
    assert [] + c.objects == c.objects;
    assert [] + Survivors(f) == Survivors(f);
  }

  // ---------------------------------------------------------------------------
  // Many frames

  /**
   The game loop without its window: one frame per keyboard direction, each
   reading the direction into the robot and then updating the world. Once the
   game is over it stays over, whatever the player does; over any number of
   frames the score plus the points still falling is constant, the group only
   shrinks, and the score has moved by at most the number of objects consumed.
   */
  function Run(d: Director, c: Cast, directions: seq<Point>, maxX: int, maxY: int, move: Mover, reading: Reading): (r: Frame)
    ensures !d.isPlaying ==> !r.director.isPlaying
    ensures r.director.score + PointsOf(r.cast.objects) == d.score + PointsOf(c.objects)
    ensures |r.cast.objects| <= |c.objects|
    ensures -(|c.objects| - |r.cast.objects|) <= r.director.score - d.score <= |c.objects| - |r.cast.objects|
    decreases |directions|
  {
    if directions == [] then Frame(d, c)
    else
      var next := Tick(d, c, directions[0], maxX, maxY, move, reading);
      Run(next.director, next.cast, directions[1..], maxX, maxY, move, reading)
  }

  /**
   One pass of the game loop: read the direction into the robot, then update.
   A stopped game stays stopped, the score plus the points still falling is
   kept, and the score moves by at most the number of objects removed.
   */
  function Tick(d: Director, c: Cast, direction: Point, maxX: int, maxY: int, move: Mover, reading: Reading): (r: Frame)
    ensures !d.isPlaying ==> !r.director.isPlaying
    ensures r.director.score + PointsOf(r.cast.objects) == d.score + PointsOf(c.objects)
    ensures |r.cast.objects| <= |c.objects|
    ensures -(|c.objects| - |r.cast.objects|) <= r.director.score - d.score <= |c.objects| - |r.cast.objects|
  {
    DoUpdates(d, GetInputs(c, direction), maxX, maxY, move, reading)
  }

  /** From a fresh director the score never leaves the range set by the starting objects. */
  lemma FreshScoreBounded(c: Cast, directions: seq<Point>, maxX: int, maxY: int, move: Mover, reading: Reading)
    ensures var r := Run(NewDirector(), c, directions, maxX, maxY, move, reading);
      -|c.objects| <= r.director.score <= |c.objects|
  {
  }

  // ---------------------------------------------------------------------------
  // Single frames worked through

  /** A robot moving onto the only object removes it and scores its points. */
  lemma OnlyObjectCaught(d: Director, c: Cast, maxX: int, maxY: int, move: Mover, reading: Reading)
    requires |c.objects| == 1
    requires MoveNext(c.robot, move, maxX, maxY).position == c.objects[0].position
    ensures var r := DoUpdates(d, c, maxX, maxY, move, reading);
      && r.cast.objects == []
      && r.director.score == d.score + CalculatePoints(c.objects[0])
      && (r.director.isPlaying <==> d.isPlaying && reading == Snapshot && c.objects[0].text != PenaltyGlyph)
  {
    var hit := MoveNext(c.robot, move, maxX, maxY).position;
    var f := Fates(reading, c.objects, hit, move, maxX, maxY);
    assert f == [Removed];
    assert Survivors(f) == [];
    assert Consumed(c.objects, f) == c.objects;
    assert PointsOf(c.objects) == CalculatePoints(c.objects[0]) + PointsOf(c.objects[1..]);
  }

  /**
   The robot moves onto the only object, a reward: it is collected and the
   score becomes 1. With a copy, the game goes on, since the copy still holds
   the reward; with the live list the emptied group ends the game.
   */
  lemma RewardCaughtOnFirstFrame(c: Cast, maxX: int, maxY: int, move: Mover)
    requires |c.objects| == 1 && c.objects[0].text == RewardGlyph
    requires MoveNext(c.robot, move, maxX, maxY).position == c.objects[0].position
    ensures var r := DoUpdates(NewDirector(), c, maxX, maxY, move, Snapshot);
      && r.director == Director(1, true)
      && r.cast.objects == []
      && r.cast.banner.text == "Score: 1"
    ensures var r := DoUpdates(NewDirector(), c, maxX, maxY, move, LiveList);
      && r.director == Director(1, false)
      && r.cast.objects == []
      && r.cast.banner.text == "GAME OVER. Final Score: 1"
      && r.cast.banner.fontSize == GameOverFontSize
  {
    assert IntToString(1) == "1";
    OnlyObjectCaught(NewDirector(), c, maxX, maxY, move, Snapshot);
    OnlyObjectCaught(NewDirector(), c, maxX, maxY, move, LiveList);
    assert !AllPenalty(c.objects);
  }

  /**
   The game-over banner says "Final Score", yet the frames that follow still
   move the robot and score its collisions: stepping onto a penalty object
   after the game has ended lowers the score shown as final.
   */
  lemma FinalScoreStillChanges(d: Director, c: Cast, maxX: int, maxY: int, move: Mover, reading: Reading)
    requires !d.isPlaying
    requires |c.objects| == 1 && c.objects[0].text == PenaltyGlyph
    requires MoveNext(c.robot, move, maxX, maxY).position == c.objects[0].position
    ensures var r := DoUpdates(d, c, maxX, maxY, move, reading);
      && r.director == Director(d.score - 1, false)
      && r.cast.banner.text == GameOverText(d.score - 1)
  {
    OnlyObjectCaught(d, c, maxX, maxY, move, reading);
  }
}
