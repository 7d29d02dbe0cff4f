/** The RTSP session: ANNOUNCE, SETUP, RECORD, TEARDOWN. */
module RtspSession {
  import opened Bytes
  import opened Media

  datatype State = WaitAnnounce | WaitSetup | WaitRecord | Recording | Teardown

  type Sdp = seq<CodecParams>

  /** The end of `parse_sdp`: a body without usable media descriptions is refused. */
  function ParseSdp(found: Result<Sdp>): (r: Result<Sdp>)
  {
    if found.Ok? && found.value == [] then Err else found
  }

  /** A request with the parts the session looks at: the media descriptions found in an ANNOUNCE
      body (or that reading them failed), and the path. */
  datatype Request =
    | Announce(found: Result<Sdp>, path: Option<string>)
    | Options
    | Setup(path: Option<string>)
    | Record
    | TeardownRequest
    | OtherMethod

  datatype Status = Ok200 | Channels(first: nat) | NotValidInThisState | MethodNotAllowed

  datatype Session = Session(state: State, sdp: Option<Sdp>, liveId: Option<string>)

  const NEW := Session(WaitAnnounce, None, None)
  const VIDEO_CHANNEL: nat := 0
  const AUDIO_CHANNEL: nat := 2

  /** The path without its leading slashes. */
  function Trimmed(path: string): (s: string)
  {
    if path != "" && path[0] == '/' then Trimmed(path[1..]) else path
  }

  predicate NamesStream(segment: string)
  {
    segment != "" && !("track" <= segment)
  }

  /** Where the last part that names a stream is; -1 without one. */
  function LastName(parts: seq<string>): (i: int)
    ensures -1 <= i < |parts| && (i >= 0 ==> NamesStream(parts[i]))
    ensures forall j :: i < j < |parts| ==> !NamesStream(parts[j])
    decreases |parts|
  {
    if parts == [] then -1
    else if NamesStream(parts[|parts| - 1]) then |parts| - 1
    else LastName(parts[..|parts| - 1])
  }

  function LiveId(path: string): (id: Option<string>)
  {
    var parts := SplitOn(Trimmed(path), '/');
    if LastName(parts) < 0 then None else Some(parts[LastName(parts)])
  }

  /** `Join` cannot be read in two ways: a path is the join of exactly one list of parts. */
  lemma {:induction false} SplitOfParts(parts: seq<string>)
    requires parts != [] && forall i :: 0 <= i < |parts| ==> '/' !in parts[i]
    ensures SplitOn(Join(parts, '/'), '/') == parts
  {
    if |parts| == 1 {
      SplitOfNoSep(parts[0], '/');
    } else {
      SplitOfParts(parts[1..]);
      SplitOfJoin(parts[0], Join(parts[1..], '/'), '/');
    }
  }

  /** Empty parts in front, which is what leading slashes are, make no difference. */
  lemma {:induction false} LiveIdOfParts(parts: seq<string>)
    requires parts != [] && forall i :: 0 <= i < |parts| ==> '/' !in parts[i]
    ensures LiveId(Join(parts, '/')) == if LastName(parts) < 0 then None else Some(parts[LastName(parts)])
  {
    var path := Join(parts, '/');
    SplitOfParts(parts);
    if |parts| > 1 && parts[0] == "" {
      LiveIdOfParts(parts[1..]);
      assert path == "/" + Join(parts[1..], '/') && path[1..] == Join(parts[1..], '/');
      LastNameBehind(parts);
    } else {
      assert path == "" || path[0] != '/' by {
        if parts[0] != "" {
          assert path[0] == parts[0][0];
        }
      }
    }
  }

  lemma LastNameBehind(parts: seq<string>)
    requires |parts| > 1 && parts[0] == ""
    ensures LastName(parts) == if LastName(parts[1..]) < 0 then -1 else LastName(parts[1..]) + 1
  {
    var i := LastName(parts);
    var k := LastName(parts[1..]);
    assert i >= 0 ==> i > 0 && parts[1..][i - 1] == parts[i];
    assert k >= 0 ==> parts[k + 1] == parts[1..][k];
    assert forall j :: k < j < |parts[1..]| ==> !NamesStream(parts[1..][j]);
    assert forall j :: i < j < |parts| ==> !NamesStream(parts[j]);
  }

  predicate IsTrackName(part: string)
  {
    |part| >= 5 && part[..5] == "track"
  }

  predicate IsName(part: string)
  {
    part != "" && !IsTrackName(part)
  }

  lemma LastNameIs(parts: seq<string>, i: nat)
    requires i < |parts|
    ensures IsName(parts[i]) && (forall j :: i < j < |parts| ==> !IsName(parts[j])) ==> LastName(parts) == i
    ensures LastName(parts) < 0 <==> forall j :: 0 <= j < |parts| ==> !IsName(parts[j])
  {
    forall j | 0 <= j < |parts|
      ensures NamesStream(parts[j]) <==> IsName(parts[j])
    {
    }
  }

  /** The stream is named by the last of the parts between the slashes of the path that is neither
      empty nor a track name. */
  lemma LiveIdIs(parts: seq<string>, i: nat)
    requires i < |parts| && forall j :: 0 <= j < |parts| ==> '/' !in parts[j]
    ensures IsName(parts[i]) && (forall j :: i < j < |parts| ==> !IsName(parts[j]))
            ==> LiveId(Join(parts, '/')) == Some(parts[i])
    ensures LiveId(Join(parts, '/')).None? <==> forall j :: 0 <= j < |parts| ==> !IsName(parts[j])
  {
    LiveIdOfParts(parts);
    LastNameIs(parts, i);
  }

  predicate Contains(s: string, part: string)
  {
    part <= s || (s != [] && Contains(s[1..], part))
  }

  /** A track other than the second one is video, and so is a missing path. */
  predicate IsVideoSetup(path: Option<string>)
  {
    path.None? || Contains(path.value, "track1") || !Contains(path.value, "track2")
  }

  /** `part` stands somewhere in `s`. */
  ghost predicate Occurs(part: string, s: string)
  {
    exists i :: 0 <= i <= |s| && part <= s[i..]
  }

  lemma {:induction false} ContainsIs(s: string, part: string)
    ensures Contains(s, part) <==> Occurs(part, s)
  {
    if part <= s {
      assert s[0..] == s;
    } else if s != [] {
      ContainsIs(s[1..], part);
      if i :| 0 <= i <= |s[1..]| && part <= s[1..][i..] {
        assert s[i + 1..] == s[1..][i..];
      }
      if i :| 0 <= i <= |s| && part <= s[i..] {
        assert i > 0 by {
          assert s[0..] == s;
        }
        assert s[1..][i - 1..] == s[i..];
      }
    } else {
      assert forall i :: 0 <= i <= |s| ==> s[i..] == s;
    }
  }

  /** Channel 2 for a path with `track2` and no `track1` in it, otherwise 0. */
  lemma SetupChannel(s: Session, path: Option<string>)
    requires s.state in {WaitSetup, WaitRecord}
    ensures Handled(s, Setup(path)).1
            == Ok(Channels(if path.Some? && Occurs("track2", path.value) && !Occurs("track1", path.value)
                           then 2 else 0))
  {
    if path.Some? {
      ContainsIs(path.value, "track1");
      ContainsIs(path.value, "track2");
    }
  }

  function Handled(s: Session, r: Request): (res: (Session, Result<Status>))
  {
    match r
    case Announce(found, path) =>
      if s.state != WaitAnnounce then (s, Ok(NotValidInThisState))
      else if ParseSdp(found).Err? then (s, Err)
      else (Session(WaitSetup, Some(found.value), if path.Some? then LiveId(path.value) else s.liveId), Ok(Ok200))
    case Options => (s, Ok(Ok200))
    case Setup(path) =>
      if s.state != WaitSetup && s.state != WaitRecord then (s, Ok(NotValidInThisState))
      else (s.(state := WaitRecord), Ok(Channels(if IsVideoSetup(path) then VIDEO_CHANNEL else AUDIO_CHANNEL)))
    case Record =>
      if s.state != WaitRecord then (s, Ok(NotValidInThisState)) else (s.(state := Recording), Ok(Ok200))
    case TeardownRequest => (s.(state := Teardown), Ok(Ok200))
    case OtherMethod => (s, Ok(MethodNotAllowed))
  }

  // ------------------------------------------------------------------------- traces

  function After(history: seq<Request>): (s: Session)
    decreases |history|
  {
    if history == [] then NEW
    else Handled(After(history[..|history| - 1]), history[|history| - 1]).0
  }

  predicate GoodAnnounce(r: Request)
  {
    r.Announce? && r.found.Ok? && r.found.value != []
  }

  ghost predicate TornDown(h: seq<Request>)
  {
    exists i :: 0 <= i < |h| && h[i].TeardownRequest?
  }

  ghost predicate Announced(h: seq<Request>)
  {
    exists i :: 0 <= i < |h| && GoodAnnounce(h[i])
  }

  /** A SETUP with a good ANNOUNCE before it. */
  ghost predicate SetUp(h: seq<Request>)
  {
    exists j :: 0 <= j < |h| && h[j].Setup? && Announced(h[..j])
  }

  /** A RECORD with such a SETUP before it. */
  ghost predicate Recorded(h: seq<Request>)
  {
    exists k :: 0 <= k < |h| && h[k].Record? && SetUp(h[..k])
  }

  lemma TornDownSnoc(h: seq<Request>, r: Request)
    ensures TornDown(h + [r]) <==> TornDown(h) || r.TeardownRequest?
    ensures Announced(h + [r]) <==> Announced(h) || GoodAnnounce(r)
  {
    var h' := h + [r];
    assert h'[|h|] == r;
    if TornDown(h) {
      var i :| 0 <= i < |h| && h[i].TeardownRequest?;
      assert h'[i] == h[i];
    }
    if Announced(h) {
      var i :| 0 <= i < |h| && GoodAnnounce(h[i]);
      assert h'[i] == h[i];
    }
  }

  lemma SetUpSnoc(h: seq<Request>, r: Request)
    ensures SetUp(h + [r]) <==> SetUp(h) || (Announced(h) && r.Setup?)
  {
    var h' := h + [r];
    assert forall j :: 0 <= j < |h| ==> h'[j] == h[j] && h'[..j] == h[..j];
    assert h'[|h|] == r && h'[..|h|] == h;
    if SetUp(h) {
      var j :| 0 <= j < |h| && h[j].Setup? && Announced(h[..j]);
      assert h'[j].Setup? && Announced(h'[..j]);
    }
  }

  lemma RecordedSnoc(h: seq<Request>, r: Request)
    ensures Recorded(h + [r]) <==> Recorded(h) || (SetUp(h) && r.Record?)
  {
    var h' := h + [r];
    assert forall k :: 0 <= k < |h| ==> h'[k] == h[k] && h'[..k] == h[..k];
    assert h'[|h|] == r && h'[..|h|] == h;
    if Recorded(h) {
      var k :| 0 <= k < |h| && h[k].Record? && SetUp(h[..k]);
      assert h'[k].Record? && SetUp(h'[..k]);
    }
  }

  /** The first good ANNOUNCE. */
  function FirstGood(h: seq<Request>): (r: Option<Request>)
    ensures r.Some? ==> GoodAnnounce(r.value)
  {
    if h == [] then None
    else if GoodAnnounce(h[0]) then Some(h[0])
    else FirstGood(h[1..])
  }

  function FirstSdp(h: seq<Request>): (p: Option<Sdp>)
  {
    if FirstGood(h).Some? then Some(FirstGood(h).value.found.value) else None
  }

  /** The stream named by its path. */
  function FirstId(h: seq<Request>): (id: Option<string>)
  {
    if FirstGood(h).Some? && FirstGood(h).value.path.Some? then LiveId(FirstGood(h).value.path.value) else None
  }

  lemma {:induction false} FirstGoodSnoc(h: seq<Request>, r: Request)
    ensures FirstGood(h + [r])
            == if FirstGood(h).Some? then FirstGood(h) else if GoodAnnounce(r) then Some(r) else None
  {
    if h == [] {
      assert h + [r] == [r] && [r][1..] == [];
    } else {
      FirstGoodSnoc(h[1..], r);
      assert (h + [r])[1..] == h[1..] + [r];
    }
  }

  /** The state is read off the history: TEARDOWN anywhere is final, otherwise it says how far
      ANNOUNCE, then SETUP, then RECORD occur in this order. */
  ghost predicate StateMatches(h: seq<Request>, s: Session)
  {
    && (TornDown(h) ==> s.state == Teardown)
    && (!TornDown(h) ==>
          && s.state == (if Recorded(h) then Recording
                         else if SetUp(h) then WaitRecord
                         else if Announced(h) then WaitSetup
                         else WaitAnnounce)
          && s.sdp == FirstSdp(h) && s.liveId == FirstId(h))
    && (Announced(h) <==> FirstSdp(h).Some?)
    && (FirstSdp(h).Some? ==> FirstSdp(h).value != [])
    && (Recorded(h) ==> SetUp(h)) && (SetUp(h) ==> Announced(h))
  }

  lemma StepMatches(h: seq<Request>, s: Session, r: Request)
    requires StateMatches(h, s)
    ensures StateMatches(h + [r], Handled(s, r).0)
  {
    TornDownSnoc(h, r);
    SetUpSnoc(h, r);
    RecordedSnoc(h, r);
    FirstGoodSnoc(h, r);
  }

  lemma {:induction false} EveryHistory(h: seq<Request>)
    ensures StateMatches(h, After(h))
    decreases |h|
  {
    if h != [] {
      var front, last := h[..|h| - 1], h[|h| - 1];
      EveryHistory(front);
      assert h == front + [last];
      StepMatches(front, After(front), last);
    }
  }

  /** Recording exactly after a good ANNOUNCE, a later SETUP and a later RECORD, without any
      TEARDOWN; codec parameters and stream name are then those of the first good ANNOUNCE, and
      there are parameters. */
  lemma RecordingIff(h: seq<Request>)
    ensures After(h).state == Recording <==> Recorded(h) && !TornDown(h)
    ensures After(h).state == Recording ==>
              && After(h).sdp.Some? && After(h).sdp == FirstSdp(h) && After(h).sdp.value != []
              && After(h).liveId == FirstId(h)
  {
    EveryHistory(h);
  }

  /** TEARDOWN is absorbing. */
  lemma TeardownIsFinal(h: seq<Request>, more: seq<Request>)
    requires After(h).state == Teardown
    ensures After(h + more).state == Teardown
  {
    EveryHistory(h);
    EveryHistory(h + more);
    if TornDown(h) {
      var i :| 0 <= i < |h| && h[i].TeardownRequest?;
      assert (h + more)[i] == h[i];
    }
  }

  // --------------------------------------------------------------------- the object

  class RtspSession {
    var state: State
    var parsedSdp: Option<Sdp>
    var liveId: Option<string>
    ghost var history: seq<Request>

    ghost function View(): (s: Session)
      reads this
    {
      Session(state, parsedSdp, liveId)
    }

    ghost predicate Valid()
      reads this
    {
      View() == After(history)
    }

    constructor ()
      ensures Valid() && View() == NEW && history == []
    {
      state, parsedSdp, liveId, history := WaitAnnounce, None, None, [];
    }

    method HandleRequest(r: Request) returns (res: Result<Status>)
      requires Valid()
      modifies this
      ensures Valid() && history == old(history) + [r]
      ensures (View(), res) == Handled(old(View()), r)
      ensures r.Options? || r.TeardownRequest? ==> res == Ok(Ok200)
      ensures r.OtherMethod? ==> res == Ok(MethodNotAllowed)
      ensures r.Options? || r.OtherMethod? ==> View() == old(View())
    {
      match r {
        case Announce(found, path) => res := HandleAnnounce(found, path);
        case Options => res := Ok(Ok200);
        case Setup(path) => res := HandleSetup(path);
        case Record => res := HandleRecord();
        case TeardownRequest =>
          state := Teardown;
          res := Ok(Ok200);
        case OtherMethod => res := Ok(MethodNotAllowed);
      }
      history := old(history) + [r];
      assert history[..|history| - 1] == old(history);
    }

    /** A stream is announced if and only if none was before, the session still stands and the
        body holds media. */
    method HandleAnnounce(found: Result<Sdp>, path: Option<string>) returns (res: Result<Status>)
      requires Valid()
      modifies this`state, this`parsedSdp, this`liveId
      ensures (View(), res) == Handled(old(View()), Announce(found, path))
      ensures res == Ok(Ok200) <==> !TornDown(history) && !Announced(history) && GoodAnnounce(Announce(found, path))
      ensures res == Err <==> !TornDown(history) && !Announced(history) && !GoodAnnounce(Announce(found, path))
    {
      EveryHistory(history);
      if state != WaitAnnounce {
        return Ok(NotValidInThisState);
      }
      var sdp := ParseSdp(found);
      if sdp.Err? {
        return Err;
      }
      parsedSdp := Some(sdp.value);
      if path.Some? {
        var parts := SplitOn(Trimmed(path.value), '/');
        var i := FindName(parts);
        liveId := if i < 0 then None else Some(parts[i]);
      }
      state := WaitSetup;
      res := Ok(Ok200);
    }

    /** `rfind` over the parts of the path. */
    static method FindName(parts: seq<string>) returns (i: int)
      ensures i == LastName(parts)
    {
      i := |parts| - 1;
      assert parts[..|parts|] == parts;
      while i >= 0 && !NamesStream(parts[i])
        invariant -1 <= i < |parts|
        invariant LastName(parts) == LastName(parts[..i + 1])
      {
        assert parts[..i + 1][..i] == parts[..i];
        i := i - 1;
      }
    }

    method HandleSetup(path: Option<string>) returns (res: Result<Status>)
      requires Valid()
      modifies this`state
      ensures (View(), res) == Handled(old(View()), Setup(path))
      ensures res != Ok(NotValidInThisState) <==> !TornDown(history) && Announced(history) && !Recorded(history)
    {
      EveryHistory(history);
      if state != WaitSetup && state != WaitRecord {
        return Ok(NotValidInThisState);
      }
      var channel := if IsVideoSetup(path) then VIDEO_CHANNEL else AUDIO_CHANNEL;
      state := WaitRecord;
      res := Ok(Channels(channel));
    }

    /** Recording starts if and only if a stream was announced and then set up, and neither
        recording nor teardown came before. */
    method HandleRecord() returns (res: Result<Status>)
      requires Valid()
      modifies this`state
      ensures (View(), res) == Handled(old(View()), Record)
      ensures res == Ok(Ok200) <==> !TornDown(history) && SetUp(history) && !Recorded(history)
    {
      EveryHistory(history);
      if state != WaitRecord {
        return Ok(NotValidInThisState);
      }
      state := Recording;
      res := Ok(Ok200);
    }
  }
}
