/** Two series of events that leave what nobody asked for, because an answer is not looked at. */
module UpdateWitnesses {
  import opened Wrappers
  import opened MachineWord
  import opened Crc32
  import opened PldmHeader
  import opened PackageFormat
  import opened UpdateSessions
  import opened UpdateReference

  const BOTH := Setup(true, true)

  /** The header of an empty package for the IST vectors component, whose payload is one byte. */
  ghost function SomeHeader(): seq<byte> {
    SampleIsAccepted([], Checksum([1]), []);
    HeaderBytes(Sample([], Checksum([1])))
  }

  lemma SomeHeaderIsAccepted(payload: seq<byte>)
    ensures
      var received := SomeHeader() + payload;
      && VerdictOn(received).Accept? && VerdictOn(received).comp.payloadCrc == Checksum([1])
      && PayloadOf(received) == payload
  {
    hide Checksum, VerdictOn, HeaderBytes, Sample, PackageSize;
    SampleIsAccepted([], Checksum([1]), payload);
  }

  /** The stream of the image file is closed without asking whether its last flush worked: an update whose
      flush keeps nothing ends with an empty image mounted, though its payload matched its checksum. */
  lemma ShortImageIsMounted(before: Option<seq<byte>>, hasVersion: bool)
    ensures
      var full := CloseAnswer(Some(0), true);
      var env := Env(NotMounted, NotMounted, true, true, full, MountWorks, hasVersion);
      var received := SomeHeader() + [1];
      FollowAll(World(Resting, before, NOTHING, []),
                [Request(true, true), PeekRead(received, env), TransferEnd(env)], BOTH)
        == World(Resting, Some([]), Mounts(Some([]), true),
                 [Fate(received, before, NO_TICKS, StreamEnded, full, Mounted, Some([]), Mounts(Some([]), true))])
  {
    SomeHeaderIsAccepted([1]);
    hide Checksum, VerdictOn, PayloadOf, SomeHeader;
    var full := CloseAnswer(Some(0), true);
    var env := Env(NotMounted, NotMounted, true, true, full, MountWorks, hasVersion);
    var received := SomeHeader() + [1];
    var request, read, end := Request(true, true), PeekRead(received, env), TransferEnd(env);
    ThreeSteps(World(Resting, before, NOTHING, []), request, read, end);
    assert [] + received == received;
  }

  /** An unmount that is not permitted counts as done: the image file is opened, and emptied, while it is
      mounted. */
  lemma MountedImageIsOverwritten(image: seq<byte>, env: Env)
    requires env.openOk && env.vectors == NotPermitted && env.golden != UnmountFailed
    ensures
      var works := env.(golden := NotMounted, vectors := NotMounted, mount := MountWorks);
      FollowAll(World(Resting, Some(image), NOTHING, []),
                [Startup(works), Request(true, true), PeekRead(SomeHeader(), env)], BOTH)
        == World(Transferring(Some(image), SomeHeader(), NO_TICKS), Some([]),
                 Mounts(Some(image), env.golden == NotPermitted), [])
  {
    SomeHeaderIsAccepted([]);
    hide Checksum, VerdictOn, PayloadOf, SomeHeader;
    var works := env.(golden := NotMounted, vectors := NotMounted, mount := MountWorks);
    var received := SomeHeader();
    assert received + [] == received;
    ThreeSteps(World(Resting, Some(image), NOTHING, []), Startup(works), Request(true, true), PeekRead(received, env));
    assert [] + received == received;
  }

  lemma ThreeSteps(w: World, a: UpdateEvent, b: UpdateEvent, c: UpdateEvent)
    ensures FollowAll(w, [a, b, c], BOTH) == Follow(Follow(Follow(w, a, BOTH), b, BOTH), c, BOTH)
  {
    hide Follow;
    assert [a, b, c][..2] == [a, b] && [a, b][..1] == [a] && [a][..0] == [];
    assert FollowAll(w, [a], BOTH) == Follow(w, a, BOTH);
    assert FollowAll(w, [a, b], BOTH) == Follow(Follow(w, a, BOTH), b, BOTH);
  }
}
