/**
  From the SETTINGS frames a peer may send to the windows they move: the initial window sizes an accepted frame can
  carry are exactly those that keep every window in range.
 */
module PeerSettings {
  import opened Octets
  import opened H2
  import opened Frames
  import FrameRoundTrip
  import FrameRules
  import opened FlowWindow
  import opened FlowSender
  import opened SenderRuns
  import opened SenderHistory

  /** The payload is accepted, and gives SETTINGS_INITIAL_WINDOW_SIZE this value. */
  ghost predicate Carries(b: seq<byte>, size: uint32) {
    |b| % SETTING_LEN == 0 && ReadSettings(b).Ok? && Setting(4, size) in ReadSettings(b).value
  }

  lemma CarriedExactly(size: uint32)
    ensures (exists b :: Carries(b, size)) <==> size <= MAX_WINDOW_SIZE
  {
    if b :| Carries(b, size) {
      FrameRules.AcceptedSizesFit(b, size);
    }
    if size <= MAX_WINDOW_SIZE {
      var settings := [Setting(4, size)];
      FrameRoundTrip.SettingsRoundTrip(settings);
      assert Setting(4, size) in settings;
      hide SettingsPayload, ReadSettings;
      assert Carries(SettingsPayload(settings), size);
    }
  }

  /** Every SETTINGS change of the run comes out of an accepted frame. */
  ghost predicate FromFrames(ops: seq<Op>) {
    forall i | 0 <= i < |ops| && ops[i].Settings? :: exists b :: Carries(b, ops[i].size)
  }

  /**
    Whatever SETTINGS a peer sends, and however they interleave with everything else: no window leaves its range, and a
    stream that is not open can be opened.
   */
  lemma PeersCannotBreakWindows(ops: seq<Op>)
    requires FromFrames(ops)
    ensures Validated(ops) && AllInRange(Run(ops))
    ensures forall id: uint32 :: OpenPanics(Run(ops), id) <==> id == 0 || IsOpen(ops, id)
  {
    forall i | 0 <= i < |ops| && ops[i].Settings? ensures ops[i].size <= MAX_WINDOW_SIZE {
      CarriedExactly(ops[i].size);
    }
    hide Run, FromFrames, Carries, IsOpen;
    WindowsStayInRange(ops);
    forall id: uint32 ensures OpenPanics(Run(ops), id) <==> id == 0 || IsOpen(ops, id) {
      OpenMeansOpened(ops, id);
    }
  }
}
