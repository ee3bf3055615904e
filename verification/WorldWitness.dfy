/** Runs in which the receiver does not do what one might expect of it. */
module WorldWitness {
  import opened Protocol
  import opened Sessions
  import opened Manager
  import opened Receiver
  import opened World
  import opened WorldClock
  import opened WorldExclusive

  lemma Extend(cfg: Config, ws: seq<World>, es: seq<Event>, e: Event)
    requires IsRun(cfg, ws, es) && Enabled(cfg, ws[|es|], e)
    ensures IsRun(cfg, ws + [Step(cfg, ws[|es|], e)], es + [e])
  {
    var ws', es' := ws + [Step(cfg, ws[|es|], e)], es + [e];
    forall i: nat | i < |es'|
      ensures Linked(cfg, ws', es', i)
    {
      assert i < |es| ==> Linked(cfg, ws, es, i);
      assert i < |es| ==> ws'[i] == ws[i] && ws'[i + 1] == ws[i + 1] && es'[i] == es[i];
    }
  }

  function Quiet(timeout: int, interval: int, digest: Digest): Config {
    Config("", false, timeout, interval, digest)
  }

  const START := World(0, map[], map[], {}, multiset{}, multiset{}, map[], map[], None, 5)

  const ONE_FILE := map["f" := FileMetadata("f", "a.txt", 1, "")]

  const REQUEST := PrepareRequest(true, "", None, "10.0.0.2", "", Some(ONE_FILE))

  const YES := Decision(true, None)

  function Knock(sid: Uuid): UploadRequest {
    UploadRequest(true, sid, "", 0, "10.0.0.3", None)
  }

  function First(touchedAt: int): Session {
    NewSession("10.0.0.2", false, ONE_FILE, map["f" := 7], 0).Touched(touchedAt)
  }

  /** The first session of both runs, and the time until it has expired. */
  lemma FirstSession(cfg: Config)
    returns (ws: seq<World>, es: seq<Event>)
    requires cfg.pin == "" && !cfg.strictTLS
    ensures IsRun(cfg, ws, es) && |es| == 3 && Starts(ws[0])
    ensures ws[3] == START.(now := 11, stored := {1},
                            sessions := map[1 := First(0)])
    ensures es == [PrepareArrives(0, REQUEST), PrepareAnswered(0, YES, 1, map["f" := 7]), Wait(11)]
  {
    var e0, e1, e2 := PrepareArrives(0, REQUEST), PrepareAnswered(0, YES, 1, map["f" := 7]), Wait(11);
    var w0 := START;
    assert !AllDuplicate(w0.disk, ONE_FILE) by {
      assert "f" in ONE_FILE;
    }
    var w1 := Step(cfg, w0, e0);
    assert w1 == w0.(preparing := map[0 := REQUEST]);
    assert Filtered(YES, ONE_FILE) == ONE_FILE;
    var w2 := Step(cfg, w1, e1);
    assert w1.preparing - {0} == map[];
    var w3 := Step(cfg, w2, e2);
    Extend(cfg, [w0], [], e0);
    Extend(cfg, [w0] + [w1], [] + [e0], e1);
    Extend(cfg, [w0] + [w1] + [w2], [] + [e0] + [e1], e2);
    ws, es := [w0] + [w1] + [w2] + [w3], [] + [e0] + [e1] + [e2];
  }

  /** Three more events of a run. */
  lemma ThreeMore(cfg: Config, ws: seq<World>, es: seq<Event>, e0: Event, w1: World, e1: Event, w2: World, e2: Event,
                  w3: World)
    returns (ws': seq<World>, es': seq<Event>)
    requires IsRun(cfg, ws, es) && |es| == 3
    requires Enabled(cfg, ws[3], e0) && w1 == Step(cfg, ws[3], e0)
    requires Enabled(cfg, w1, e1) && w2 == Step(cfg, w1, e1)
    requires Enabled(cfg, w2, e2) && w3 == Step(cfg, w2, e2)
    ensures IsRun(cfg, ws', es') && |es'| == 6
    ensures ws'[0] == ws[0] && ws'[1] == ws[1] && ws'[2] == ws[2] && ws'[3] == ws[3]
    ensures ws'[4] == w1 && ws'[5] == w2 && ws'[6] == w3
    ensures es'[0] == es[0] && es'[1] == es[1] && es'[2] == es[2]
    ensures es'[3] == e0 && es'[4] == e1 && es'[5] == e2
  {
    Extend(cfg, ws, es, e0);
    Extend(cfg, ws + [w1], es + [e0], e1);
    Extend(cfg, ws + [w1] + [w2], es + [e0] + [e1], e2);
    ws', es' := ws + [w1] + [w2] + [w3], es + [e0] + [e1] + [e2];
  }

  lemma SweepRace(cfg: Config, w3: World) returns (w4: World, w5: World, w6: World, w7: World)
    requires cfg.timeout == 10 && cfg.interval == 5
    requires w3 == START.(now := 11, stored := {1}, sessions := map[1 := First(0)])
    ensures Enabled(cfg, w3, SweepBegins) && w4 == Step(cfg, w3, SweepBegins)
    ensures Enabled(cfg, w4, SweepReads(1)) && w5 == Step(cfg, w4, SweepReads(1))
    ensures Enabled(cfg, w5, UploadArrives(0, Knock(1))) && w6 == Step(cfg, w5, UploadArrives(0, Knock(1)))
    ensures Enabled(cfg, w6, SweepDeletes) && w7 == Step(cfg, w6, SweepDeletes)
    ensures w6.now == 11 && w6.stored == {1} && w6.sessions == map[1 := First(11)]
    ensures w7.now == 11 && w7.stored == {}
  {
    w4 := Step(cfg, w3, SweepBegins);
    w5 := Step(cfg, w4, SweepReads(1));
    assert w5.sweep.value.condemned == Some((1, 0));
    w6 := Step(cfg, w5, UploadArrives(0, Knock(1)));
    assert map[1 := First(0)][1 := First(11)] == map[1 := First(11)];
    w7 := Step(cfg, w6, SweepDeletes);
    assert {1} - {1} == {};
  }

  /** A sweep can remove a session that was touched a moment ago: the touch came after the sweep had read the
      access time, and before it deleted the session. The receiver stops being busy. */
  lemma SweepRemovesLiveSession(digest: Digest) returns (cfg: Config, ws: seq<World>, es: seq<Event>)
    ensures cfg.timeout == 10 && cfg.interval == 5
    ensures IsRun(cfg, ws, es) && Starts(ws[0]) && |es| == 7 && es[6] == SweepDeletes
    ensures 1 in ws[6].stored && 1 in ws[6].sessions && Age(ws[6], 1) == 0 && 1 !in ws[7].stored
    ensures Busy(Visible(ws[6]).table, cfg.timeout, ws[6].now)
    ensures !Busy(Visible(ws[7]).table, cfg.timeout, ws[7].now)
  {
    cfg := Quiet(10, 5, digest);
    ws, es := FirstSession(cfg);
    var w4, w5, w6, w7 := SweepRace(cfg, ws[3]);
    var e3, e4, e5, e6 := SweepBegins, SweepReads(1), UploadArrives(0, Knock(1)), SweepDeletes;
    Extend(cfg, ws, es, e3);
    Extend(cfg, ws + [w4], es + [e3], e4);
    Extend(cfg, ws + [w4] + [w5], es + [e3] + [e4], e5);
    Extend(cfg, ws + [w4] + [w5] + [w6], es + [e3] + [e4] + [e5], e6);
    ws, es := ws + [w4] + [w5] + [w6] + [w7], es + [e3] + [e4] + [e5] + [e6];
    assert Visible(w6).table[1].lastAccess == 11;
    assert Visible(w7).table == map[];
  }

  lemma Revival(cfg: Config, w3: World) returns (w4: World, w5: World, w6: World)
    requires cfg.timeout == 10 && cfg.pin == "" && !cfg.strictTLS
    requires w3 == START.(now := 11, stored := {1}, sessions := map[1 := First(0)])
    ensures Enabled(cfg, w3, PrepareArrives(0, REQUEST)) && w4 == Step(cfg, w3, PrepareArrives(0, REQUEST))
    ensures Enabled(cfg, w4, PrepareAnswered(0, YES, 2, map["f" := 7]))
    ensures w5 == Step(cfg, w4, PrepareAnswered(0, YES, 2, map["f" := 7]))
    ensures Enabled(cfg, w5, UploadArrives(0, Knock(1))) && w6 == Step(cfg, w5, UploadArrives(0, Knock(1)))
    ensures w5.preparing == w4.preparing - {0} && w6.preparing == w5.preparing
    ensures Unexpired(cfg, w6, 1) && Unexpired(cfg, w6, 2)
  {
    assert !AllDuplicate(w3.disk, ONE_FILE) by {
      assert "f" in ONE_FILE;
    }
    assert Visible(w3).table == w3.sessions;
    w4 := Step(cfg, w3, PrepareArrives(0, REQUEST));
    assert w4 == w3.(preparing := map[0 := REQUEST]);
    assert Filtered(YES, ONE_FILE) == ONE_FILE && "f" in ONE_FILE;
    w5 := Step(cfg, w4, PrepareAnswered(0, YES, 2, map["f" := 7]));
    assert w5.sessions[1] == First(0) && 1 in w5.stored && 2 in w5.stored;
    w6 := Step(cfg, w5, UploadArrives(0, Knock(1)));
  }

  /** A request that names an expired session revives it beside a newer one: two live sessions, although the prepare
      handlers were serialised. */
  lemma RevivalBreaksExclusivity(digest: Digest) returns (cfg: Config, ws: seq<World>, es: seq<Event>)
    ensures IsRun(cfg, ws, es) && Starts(ws[0]) && |es| == 6
    ensures forall k :: 0 <= k < |es| ==> Serialised(cfg, ws[k], es[k])
    ensures Unexpired(cfg, ws[6], 1) && Unexpired(cfg, ws[6], 2)
  {
    cfg := Quiet(10, 5, digest);
    ws, es := FirstSession(cfg);
    var e3, e4, e5 := PrepareArrives(0, REQUEST), PrepareAnswered(0, YES, 2, map["f" := 7]), UploadArrives(0, Knock(1));
    var w4, w5, w6 := Revival(cfg, ws[3]);
    var e1 := es[1];
    assert ws[0].preparing == map[] && ws[3].preparing == map[] && e1.PrepareAnswered?;
    ws, es := ThreeMore(cfg, ws, es, e3, w4, e4, w5, e5, w6);
    forall k | 0 <= k < |es|
      ensures Serialised(cfg, ws[k], es[k])
    {
      match k
      case 0 =>
      case 1 => assert es[1] == e1;
      case 2 => assert es[2] == Wait(11);
      case 3 =>
      case 4 => assert es[4] == e4;
      case 5 => assert es[5] == e5;
    }
  }

  lemma RevivalWhileAsking(cfg: Config, w3: World) returns (w4: World, w5: World, w6: World)
    requires cfg.timeout == 10 && cfg.pin == "" && !cfg.strictTLS
    requires w3 == START.(now := 11, stored := {1}, sessions := map[1 := First(0)])
    ensures Enabled(cfg, w3, PrepareArrives(0, REQUEST)) && w4 == Step(cfg, w3, PrepareArrives(0, REQUEST))
    ensures Passes(cfg, w3, PrepareArrives(0, REQUEST))
    ensures Enabled(cfg, w4, UploadArrives(0, Knock(1))) && w5 == Step(cfg, w4, UploadArrives(0, Knock(1)))
    ensures Enabled(cfg, w5, PrepareAnswered(0, YES, 2, map["f" := 7]))
    ensures w6 == Step(cfg, w5, PrepareAnswered(0, YES, 2, map["f" := 7]))
    ensures Unexpired(cfg, w6, 1) && Unexpired(cfg, w6, 2)
  {
    assert !AllDuplicate(w3.disk, ONE_FILE) by {
      assert "f" in ONE_FILE;
    }
    assert Visible(w3).table == w3.sessions;
    w4 := Step(cfg, w3, PrepareArrives(0, REQUEST));
    assert w4 == w3.(preparing := map[0 := REQUEST]);
    w5 := Step(cfg, w4, UploadArrives(0, Knock(1)));
    assert w5.sessions == map[1 := First(11)] && w5.stored == {1} && w5.preparing == w4.preparing;
    assert Filtered(YES, ONE_FILE) == ONE_FILE && "f" in ONE_FILE;
    w6 := Step(cfg, w5, PrepareAnswered(0, YES, 2, map["f" := 7]));
  }

  /** A touch between the check and the answer: the receiver was idle when it checked the request, and when it creates
      the session another one is live. */
  lemma CreatedBesideLive(digest: Digest) returns (cfg: Config, ws: seq<World>, es: seq<Event>)
    ensures IsRun(cfg, ws, es) && Starts(ws[0]) && |es| == 6
    ensures AnswersCheck(cfg, ws, es, 3, 5) && es[5].sid == 2
    ensures Unexpired(cfg, ws[6], 1) && Unexpired(cfg, ws[6], 2)
  {
    cfg := Quiet(10, 5, digest);
    ws, es := FirstSession(cfg);
    var e3, e4, e5 := PrepareArrives(0, REQUEST), UploadArrives(0, Knock(1)), PrepareAnswered(0, YES, 2, map["f" := 7]);
    var w4, w5, w6 := RevivalWhileAsking(cfg, ws[3]);
    ws, es := ThreeMore(cfg, ws, es, e3, w4, e4, w5, e5, w6);
    AnswersThird(cfg, ws, es);
  }

  lemma AnswersThird(cfg: Config, ws: seq<World>, es: seq<Event>)
    requires IsRun(cfg, ws, es) && |es| == 6
    requires Passes(cfg, ws[3], es[3]) && !es[4].PrepareAnswered?
    requires es[3].PrepareArrives? && es[5].PrepareAnswered? && es[5].pid == es[3].pid
    ensures AnswersCheck(cfg, ws, es, 3, 5) && NoCreation(ws, es, 3, 5)
  {
  }

  lemma BothAsked(cfg: Config) returns (w1: World, w2: World)
    requires cfg.pin == "" && !cfg.strictTLS
    ensures Enabled(cfg, START, PrepareArrives(0, REQUEST)) && w1 == Step(cfg, START, PrepareArrives(0, REQUEST))
    ensures Enabled(cfg, w1, PrepareArrives(1, REQUEST)) && w2 == Step(cfg, w1, PrepareArrives(1, REQUEST))
    ensures Passes(cfg, START, PrepareArrives(0, REQUEST)) && Passes(cfg, w1, PrepareArrives(1, REQUEST))
    ensures w2 == START.(preparing := map[0 := REQUEST, 1 := REQUEST])
  {
    assert !AllDuplicate(START.disk, ONE_FILE) by {
      assert "f" in ONE_FILE;
    }
    w1 := Step(cfg, START, PrepareArrives(0, REQUEST));
    assert w1 == START.(preparing := map[0 := REQUEST]);
    w2 := Step(cfg, w1, PrepareArrives(1, REQUEST));
    assert map[0 := REQUEST][1 := REQUEST] == map[0 := REQUEST, 1 := REQUEST];
  }

  lemma BothGranted(cfg: Config, w2: World) returns (w3: World, w4: World)
    requires cfg.timeout == 10 && w2 == START.(preparing := map[0 := REQUEST, 1 := REQUEST])
    ensures Enabled(cfg, w2, PrepareAnswered(0, YES, 1, map["f" := 7]))
    ensures w3 == Step(cfg, w2, PrepareAnswered(0, YES, 1, map["f" := 7]))
    ensures Enabled(cfg, w3, PrepareAnswered(1, YES, 2, map["f" := 8]))
    ensures w4 == Step(cfg, w3, PrepareAnswered(1, YES, 2, map["f" := 8]))
    ensures Unexpired(cfg, w4, 1) && Unexpired(cfg, w4, 2)
  {
    assert Filtered(YES, ONE_FILE) == ONE_FILE && "f" in ONE_FILE;
    w3 := Step(cfg, w2, PrepareAnswered(0, YES, 1, map["f" := 7]));
    assert w3.preparing == map[1 := REQUEST] && w3.stored == {1};
    w4 := Step(cfg, w3, PrepareAnswered(1, YES, 2, map["f" := 8]));
  }

  /** Two prepare requests that overlap: both find the receiver idle, both are granted, and two sessions are live
      although nothing was ever touched. */
  lemma OverlappingGrants(digest: Digest) returns (cfg: Config, ws: seq<World>, es: seq<Event>)
    ensures IsRun(cfg, ws, es) && Starts(ws[0]) && |es| == 4
    ensures AnswersCheck(cfg, ws, es, 0, 2) && AnswersCheck(cfg, ws, es, 1, 3)
    ensures forall k :: 0 <= k < |es| ==> es[k].PrepareArrives? || es[k].PrepareAnswered?
    ensures Unexpired(cfg, ws[4], 1) && Unexpired(cfg, ws[4], 2)
  {
    cfg := Quiet(10, 5, digest);
    var e0, e1 := PrepareArrives(0, REQUEST), PrepareArrives(1, REQUEST);
    var e2, e3 := PrepareAnswered(0, YES, 1, map["f" := 7]), PrepareAnswered(1, YES, 2, map["f" := 8]);
    var w1, w2 := BothAsked(cfg);
    var w3, w4 := BothGranted(cfg, w2);
    ws, es := FourEvents(cfg, START, e0, w1, e1, w2, e2, w3, e3, w4);
    AnswersCrosswise(cfg, ws, es);
  }

  lemma AnswersCrosswise(cfg: Config, ws: seq<World>, es: seq<Event>)
    requires IsRun(cfg, ws, es) && |es| == 4
    requires Passes(cfg, ws[0], es[0]) && Passes(cfg, ws[1], es[1])
    requires es[0].PrepareArrives? && es[2].PrepareAnswered? && es[2].pid == es[0].pid
    requires es[1].PrepareArrives? && es[3].PrepareAnswered? && es[3].pid == es[1].pid
    ensures AnswersCheck(cfg, ws, es, 0, 2) && AnswersCheck(cfg, ws, es, 1, 3)
    ensures forall k :: 0 <= k < |es| ==> es[k].PrepareArrives? || es[k].PrepareAnswered?
  {
    forall k | 0 <= k < |es|
      ensures es[k].PrepareArrives? || es[k].PrepareAnswered?
    {
      assert k == 0 || k == 1 || k == 2 || k == 3;
    }
  }

  lemma FourEvents(cfg: Config, w0: World, e0: Event, w1: World, e1: Event, w2: World, e2: Event, w3: World,
                   e3: Event, w4: World)
    returns (ws: seq<World>, es: seq<Event>)
    requires Enabled(cfg, w0, e0) && w1 == Step(cfg, w0, e0)
    requires Enabled(cfg, w1, e1) && w2 == Step(cfg, w1, e1)
    requires Enabled(cfg, w2, e2) && w3 == Step(cfg, w2, e2)
    requires Enabled(cfg, w3, e3) && w4 == Step(cfg, w3, e3)
    ensures IsRun(cfg, ws, es) && ws == [w0, w1, w2, w3, w4] && es == [e0, e1, e2, e3]
  {
    ws, es := [w0, w1, w2, w3, w4], [e0, e1, e2, e3];
    forall i: nat | i < |es|
      ensures Linked(cfg, ws, es, i)
    {
      assert i == 0 || i == 1 || i == 2 || i == 3;
    }
  }
}
