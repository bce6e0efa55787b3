/**
 * The audio device as a whole (dev/audio.c): the two interrupt handlers, which call each other to keep
 * playing and recording in step, and the unlocked writer and reader. What an event does is a function
 * on the state; the handlers are proved to compute it, and every run to keep the rings sound.
 */
module AudioDevice {
  import opened Bytes
  import opened Division
  import opened AudioRing
  import opened AudioIntr
  import AudioParams

  // ----- The two directions -----

  datatype Player = Player(ring: Ring, account: Account, hold: Hold)

  datatype Recorder = Recorder(ring: Ring, account: RecAccount, hold: Hold)

  ghost predicate PlaySound(p: Player, active: bool) {
    && Shape(p.ring) && Whole(p.ring.start, p.ring.blksz) && Honours(p.ring, p.hold)
    && (active ==> p.ring.blksz <= p.ring.used && Balanced(p.ring, p.account))
  }

  ghost predicate RecSound(r: Recorder) {
    Frame(r.ring) && RecBalanced(r.ring, r.account) && RecHonours(r.ring, r.hold)
  }

  /** Whole blocks in the ring, with room for one more, and whole blocks in the hand of the reader. */
  predicate Tidy(r: Recorder)
    requires r.ring.blksz > 0
  {
    HasRoom(r.ring.used, r.ring.len, r.ring.blksz) && (r.hold.Held? ==> Whole(r.hold.count, r.ring.blksz))
  }

  /** One block played, with all that hangs on it. */
  ghost function PlayOne(p: Player): Player {
    Player(PlayBlock(p.ring), Tally(p.ring, p.account), Slip(p.ring, p.hold))
  }

  ghost function PlayMany(p: Player, n: nat): Player {
    if n == 0 then p else PlayOne(PlayMany(p, n - 1))
  }

  ghost function RecOne(r: Recorder): Recorder {
    Recorder(RecBlock(r.ring), RecTally(r.ring, r.account), RecSlip(r.ring, r.hold))
  }

  ghost function RecMany(r: Recorder, n: nat): Recorder {
    if n == 0 then r else RecOne(RecMany(r, n - 1))
  }

  lemma PlayOneSound(p: Player)
    requires PlaySound(p, true)
    ensures PlaySound(PlayOne(p), true) && Nblk(PlayOne(p).ring) == Nblk(p.ring) > 0
  {
    BalancedStep(p.ring, p.account);
    HonoursStep(p.ring, p.hold);
    PlayBlockKeeps(p.ring);
    BlocksFit(p.ring, 0);
  }

  lemma RecOneSound(r: Recorder)
    requires RecSound(r)
    ensures RecSound(RecOne(r)) && Nblk(RecOne(r).ring) == Nblk(r.ring) > 0
  {
    RecBalancedStep(r.ring, r.account);
    RecHonoursStep(r.ring, r.hold);
    RecBlockMoves(r.ring);
    BlocksFit(r.ring, 0);
  }

  lemma RecOneTidy(r: Recorder)
    requires Frame(r.ring) && Tidy(r)
    ensures SameBlocks(r, RecOne(r)) && Tidy(RecOne(r))
  {
    RecBlockMoves(r.ring);
    HasRoomOn(r.ring);
  }

  /** The ring is still one of whole blocks of that size. */
  ghost predicate SameBlocks(r: Recorder, s: Recorder) {
    Frame(s.ring) && s.ring.len == r.ring.len && s.ring.blksz == r.ring.blksz
  }

  lemma {:induction false} PlayManySound(p: Player, n: nat)
    requires PlaySound(p, true)
    ensures PlaySound(PlayMany(p, n), true) && Nblk(PlayMany(p, n).ring) == Nblk(p.ring)
    ensures PlayMany(p, n).account.played == p.account.played + n
    ensures PlayMany(p, n).ring == PlayBlocks(p.ring, n)
  {
    if n == 0 {
    } else {
      PlayManySound(p, n - 1);
      PlayOneSound(PlayMany(p, n - 1));
    }
  }

  lemma {:induction false} RecManySound(r: Recorder, n: nat)
    requires RecSound(r)
    ensures RecSound(RecMany(r, n)) && Nblk(RecMany(r, n).ring) == Nblk(r.ring)
    ensures RecMany(r, n).account.recorded == r.account.recorded + n
    ensures RecMany(r, n).ring == RecBlocks(r.ring, n)
  {
    if n == 0 {
    } else {
      RecManySound(r, n - 1);
      RecOneSound(RecMany(r, n - 1));
    }
  }

  lemma {:induction false} RecManyTidy(r: Recorder, n: nat)
    requires Frame(r.ring) && Tidy(r)
    ensures SameBlocks(r, RecMany(r, n)) && Tidy(RecMany(r, n))
  {
    if n == 0 {
    } else {
      RecManyTidy(r, n - 1);
      RecOneTidy(RecMany(r, n - 1));
    }
  }

  /** A catch-up leaves the play start, and the record write position, where they were. */
  lemma CatchUpsReturn(p: Player, r: Recorder)
    ensures PlaySound(p, true) ==> PlayMany(p, Nblk(p.ring)).ring.start == p.ring.start
    ensures RecSound(r) && RecReady(r.ring) ==>
      var c := RecMany(r, Nblk(r.ring)).ring; RecReady(c) && End(c) == End(r.ring)
  {
    if PlaySound(p, true) {
      PlayManySound(p, Nblk(p.ring));
      PlayAround(p.ring);
    }
    if RecSound(r) && RecReady(r.ring) {
      RecManySound(r, Nblk(r.ring));
      RecAround(r.ring);
    }
  }

  // ----- Events -----

  datatype View = View(playing: bool, recording: bool, active: bool, quiesced: bool,
                       player: Player, recorder: Recorder, offs: int)

  datatype Event = PlayIntr | RecIntr | Reserving | Writing(n: nat) | Taking(n: nat) | Reading

  ghost predicate Sound(v: View) {
    (v.playing ==> PlaySound(v.player, v.active)) && (v.recording ==> RecSound(v.recorder))
  }

  predicate Duplex(v: View) {
    v.playing && v.recording && v.active
  }

  /** Between interrupts: `offs` counts the record blocks ahead of the play blocks, within bounds. */
  ghost predicate Settled(v: View) {
    Duplex(v) ==>
      && v.offs == v.recorder.account.recorded - v.player.account.played
      && -Nblk(v.recorder.ring) < v.offs < Nblk(v.player.ring)
  }

  /** Playing gets a block ahead: exactly when recording is then a whole ring behind, one ring is recorded. */
  ghost function PlayAhead(v: View): View {
    if v.offs - 1 <= -Nblk(v.recorder.ring)
    then v.(recorder := RecMany(v.recorder, Nblk(v.recorder.ring)), offs := 0)
    else v.(offs := v.offs - 1)
  }

  ghost function RecordAhead(v: View): View {
    if v.offs + 1 >= Nblk(v.player.ring)
    then v.(player := PlayMany(v.player, Nblk(v.player.ring)), offs := 0)
    else v.(offs := v.offs + 1)
  }

  ghost function OnPlay(v: View): View {
    if !v.playing || !v.active || v.quiesced then v
    else (if v.recording then PlayAhead(v) else v).(player := PlayOne(v.player))
  }

  ghost function OnRec(v: View): View {
    if !v.recording || !v.active || v.quiesced then v
    else (if v.playing then RecordAhead(v) else v).(recorder := RecOne(v.recorder))
  }

  lemma PlayAheadSound(v: View)
    requires Sound(v) && Duplex(v)
    ensures Sound(PlayAhead(v))
  {
    RecManySound(v.recorder, Nblk(v.recorder.ring));
  }

  lemma RecordAheadSound(v: View)
    requires Sound(v) && Duplex(v)
    ensures Sound(RecordAhead(v))
  {
    PlayManySound(v.player, Nblk(v.player.ring));
  }

  lemma OnPlaySound(v: View)
    requires Sound(v)
    ensures Sound(OnPlay(v)) && (Settled(v) ==> Settled(OnPlay(v)))
  {
    if v.playing && v.active {
      PlayOneSound(v.player);
      if v.recording {
        RecManySound(v.recorder, Nblk(v.recorder.ring));
        RecOneSound(v.recorder);
      }
    }
  }

  lemma OnRecSound(v: View)
    requires Sound(v)
    ensures Sound(OnRec(v)) && (Settled(v) ==> Settled(OnRec(v)))
  {
    if v.recording && v.active {
      RecOneSound(v.recorder);
      if v.playing {
        PlayManySound(v.player, Nblk(v.player.ring));
        PlayOneSound(v.player);
      }
    }
  }

  /** The writer asks for a range, and commits no more than it got. */
  ghost function Reserved(p: Player): Player
    requires PlaySound(p, false)
  {
    p.(hold := Held(WriteBlock(p.ring).0, WriteBlock(p.ring).1, 0))
  }

  ghost function Written(p: Player, n: nat): Player {
    if p.hold.Held? && n <= p.hold.count
    then Player(Commit(p.ring, n), p.account.(wrote := p.account.wrote + n), Free)
    else p
  }

  lemma WriterSound(p: Player, active: bool, n: nat)
    requires PlaySound(p, active)
    ensures PlaySound(Reserved(p), active) && PlaySound(Written(p, n), active)
  {
  }

  /** The reader takes as much as it wants of a range, and later discards as much. */
  ghost function Taken(r: Recorder, n: nat): Recorder
    requires RecSound(r)
  {
    if n <= ReadBlock(r.ring).1 then r.(hold := Held(r.ring.start, n, 0)) else r
  }

  ghost function Read(r: Recorder): Recorder {
    if r.hold.Held?
    then Recorder(Discard(r.ring, r.hold.count), r.account.(read := r.account.read + r.hold.count), Free)
    else r
  }

  lemma ReaderSound(r: Recorder, n: nat)
    requires RecSound(r)
    ensures RecSound(Taken(r, n)) && RecSound(Read(r))
    ensures Nblk(Read(r).ring) == Nblk(r.ring)
  {
  }

  lemma ReaderTidy(r: Recorder, n: nat)
    requires RecSound(r) && Tidy(r)
    ensures Whole(n, r.ring.blksz) ==> Tidy(Taken(r, n))
    ensures Tidy(Read(r))
  {
    if r.hold.Held? {
      WholeSubtracts(r.ring.used, r.hold.count, r.ring.blksz);
    }
  }

  /** A reader that gives back part of a block leaves part of a block. */
  lemma ReaderUntidy(r: Recorder)
    requires RecSound(r) && r.hold.Held? && Whole(r.ring.used, r.ring.blksz) && !Whole(r.hold.count, r.ring.blksz)
    ensures SameBlocks(r, Read(r)) && !Tidy(Read(r))
  {
    if Whole(Read(r).ring.used, r.ring.blksz) {
      WholeSubtracts(r.ring.used, r.ring.used - r.hold.count, r.ring.blksz);
    }
  }

  ghost function Step(v: View, e: Event): (w: View)
    requires Sound(v) && Settled(v)
    ensures Sound(w) && Settled(w)
  {
    match e
    case PlayIntr => OnPlaySound(v); OnPlay(v)
    case RecIntr => OnRecSound(v); OnRec(v)
    case Reserving => if !v.playing then v else WriterSound(v.player, v.active, 0); v.(player := Reserved(v.player))
    case Writing(n) => if !v.playing then v else WriterSound(v.player, v.active, n); v.(player := Written(v.player, n))
    case Taking(n) => if !v.recording then v else ReaderSound(v.recorder, n); v.(recorder := Taken(v.recorder, n))
    case Reading => if !v.recording then v else ReaderSound(v.recorder, 0); v.(recorder := Read(v.recorder))
  }

  ghost function Steps(v: View, es: seq<Event>): (w: View)
    requires Sound(v) && Settled(v)
    ensures Sound(w) && Settled(w)
  {
    if es == [] then v else Step(Steps(v, es[..|es| - 1]), es[|es| - 1])
  }

  /** Every read takes whole blocks of the record ring. */
  predicate WholeReads(es: seq<Event>, blksz: nat)
    requires blksz > 0
  {
    forall i :: 0 <= i < |es| && es[i].Taking? ==> Whole(es[i].n, blksz)
  }

  lemma StepTidy(v: View, e: Event)
    requires Sound(v) && Settled(v) && v.recording && Tidy(v.recorder)
    requires e.Taking? ==> Whole(e.n, v.recorder.ring.blksz)
    ensures Step(v, e).recording && SameBlocks(v.recorder, Step(v, e).recorder) && Tidy(Step(v, e).recorder)
  {
    var r := v.recorder;
    match e
    case PlayIntr => RecManyTidy(r, Nblk(r.ring));
    case RecIntr => RecOneTidy(r);
    case Taking(n) => ReaderTidy(r, n);
    case Reading => ReaderTidy(r, 0);
    case _ =>
  }

  lemma {:induction false} RunTidy(v: View, es: seq<Event>)
    requires Sound(v) && Settled(v) && v.recording && Tidy(v.recorder) && WholeReads(es, v.recorder.ring.blksz)
    ensures Steps(v, es).recording && SameBlocks(v.recorder, Steps(v, es).recorder) && Tidy(Steps(v, es).recorder)
  {
    if es == [] {
    } else {
      var before, e := es[..|es| - 1], es[|es| - 1];
      assert WholeReads(before, v.recorder.ring.blksz);
      RunTidy(v, before);
      StepTidy(Steps(v, before), e);
    }
  }

  ghost predicate TidyAfter(v: View, es: seq<Event>, w: View) {
    v.recording && Frame(v.recorder.ring) && Tidy(v.recorder) && WholeReads(es, v.recorder.ring.blksz) ==>
      SameBlocks(v.recorder, w.recorder) && Tidy(w.recorder)
  }

  lemma RunTidyAfter(v: View, es: seq<Event>)
    requires Sound(v) && Settled(v)
    ensures TidyAfter(v, es, Steps(v, es))
  {
    if v.recording && Tidy(v.recorder) && WholeReads(es, v.recorder.ring.blksz) {
      RunTidy(v, es);
    }
  }

  function RecIntrs(n: nat): (es: seq<Event>)
    ensures forall i :: 0 <= i < |es| ==> es[i] == RecIntr
  {
    if n == 0 then [] else RecIntrs(n - 1) + [RecIntr]
  }

  predicate RecRunning(v: View) {
    v.recording && v.active && !v.quiesced
  }

  lemma RecIntrRecords(v: View)
    requires Sound(v) && Settled(v) && RecRunning(v)
    ensures RecRunning(Step(v, RecIntr)) && Step(v, RecIntr).recorder == RecOne(v.recorder)
  {
  }

  lemma StepsLast(v: View, es: seq<Event>, e: Event)
    requires Sound(v) && Settled(v)
    ensures Steps(v, es + [e]) == Step(Steps(v, es), e)
  {
    assert (es + [e])[..|es|] == es;
  }

  lemma {:induction false} RecIntrsRecord(v: View, n: nat)
    requires Sound(v) && Settled(v) && RecRunning(v)
    ensures RecRunning(Steps(v, RecIntrs(n))) && Steps(v, RecIntrs(n)).recorder == RecMany(v.recorder, n)
  {
    if n == 0 {
    } else {
      RecIntrsRecord(v, n - 1);
      StepsLast(v, RecIntrs(n - 1), RecIntr);
      RecIntrRecords(Steps(v, RecIntrs(n - 1)));
    }
  }

  lemma {:induction false} StepsJoin(v: View, es: seq<Event>, fs: seq<Event>)
    requires Sound(v) && Settled(v)
    ensures Steps(v, es + fs) == Steps(Steps(v, es), fs)
  {
    if fs == [] {
      assert es + fs == es;
    } else {
      assert (es + fs)[..|es + fs| - 1] == es + fs[..|fs| - 1];
      StepsJoin(v, es, fs[..|fs| - 1]);
    }
  }

  /** Enough record interrupts overfill a ring that is not tidy. */
  lemma RecorderSpills(v: View) returns (es: seq<Event>)
    requires Sound(v) && Settled(v) && RecRunning(v)
    requires !HasRoom(v.recorder.ring.used, v.recorder.ring.len, v.recorder.ring.blksz)
    ensures WholeReads(es, v.recorder.ring.blksz) && Steps(v, es).recorder.ring.used > v.recorder.ring.len
  {
    var n := RecSpills(v.recorder.ring);
    es := RecIntrs(n);
    assert WholeReads(es, v.recorder.ring.blksz);
    assert Steps(v, es).recorder.ring == RecBlocks(v.recorder.ring, n) by {
      RecIntrsRecord(v, n);
      RecManySound(v.recorder, n);
    }
  }

  lemma UntidySpills(v: View) returns (es: seq<Event>)
    requires Sound(v) && Settled(v) && RecRunning(v) && !Tidy(v.recorder)
    ensures WholeReads(es, v.recorder.ring.blksz) && Steps(v, es).recorder.ring.used > v.recorder.ring.len
  {
    var r := v.recorder;
    if !HasRoom(r.ring.used, r.ring.len, r.ring.blksz) {
      es := RecorderSpills(v);
    } else {
      ReaderUntidy(r);
      assert Steps(v, [Reading]) == Step(v, Reading);
      var fs := RecorderSpills(Step(v, Reading));
      StepsJoin(v, [Reading], fs);
      es := [Reading] + fs;
    }
  }

  /**
   * The record ring holds no more than its size in every run of interrupts, writes and whole-block reads
   * if and only if it starts with whole blocks, in the ring and in the hand of the reader.
   */
  lemma RecorderInsideIff(v: View)
    requires Sound(v) && Settled(v) && RecRunning(v)
    ensures
      (forall es :: WholeReads(es, v.recorder.ring.blksz) ==> Steps(v, es).recorder.ring.used <= v.recorder.ring.len)
      <==> Tidy(v.recorder)
  {
    if Tidy(v.recorder) {
      forall es | WholeReads(es, v.recorder.ring.blksz) ensures Steps(v, es).recorder.ring.used <= v.recorder.ring.len {
        RunTidy(v, es);
      }
    } else {
      var es := UntidySpills(v);
    }
  }

  function Count(es: seq<Event>, e: Event): nat {
    if es == [] then 0 else Count(es[..|es| - 1], e) + One(es[|es| - 1] == e)
  }

  predicate Running(v: View) {
    Duplex(v) && !v.quiesced
  }

  /** From `v` to `w`: `p` blocks and `kp` whole rings more were played, and so for recording. */
  ghost predicate Moved(v: View, w: View, p: nat, r: nat, kp: nat, kr: nat) {
    && Running(w) && Nblk(w.player.ring) == Nblk(v.player.ring) && Nblk(w.recorder.ring) == Nblk(v.recorder.ring)
    && w.player.account.played == v.player.account.played + p + Times(Nblk(v.player.ring), kp)
    && w.recorder.account.recorded == v.recorder.account.recorded + r + Times(Nblk(v.recorder.ring), kr)
  }

  lemma MovedOn(u: View, v: View, w: View, p: nat, r: nat, kp: nat, kr: nat, p': nat, r': nat, kp': nat, kr': nat)
    requires Moved(u, v, p, r, kp, kr) && Moved(v, w, p', r', kp', kr')
    ensures Moved(u, w, p + p', r + r', kp + kp', kr + kr')
  {
    TimesAdds(Nblk(u.player.ring), kp, kp');
    TimesAdds(Nblk(u.recorder.ring), kr, kr');
  }

  function One(b: bool): nat {
    if b then 1 else 0
  }

  lemma StepCounts(v: View, e: Event, w: View) returns (kp: nat, kr: nat)
    requires Sound(v) && Settled(v) && Running(v) && w == Step(v, e)
    ensures Moved(v, w, One(e == PlayIntr), One(e == RecIntr), kp, kr)
  {
    kp, kr := 0, 0;
    PlayOneSound(v.player);
    RecOneSound(v.recorder);
    if e == PlayIntr {
      RecManySound(v.recorder, Nblk(v.recorder.ring));
      kr := One(v.offs - 1 <= -Nblk(v.recorder.ring));
      assert Times(Nblk(v.recorder.ring), 1) == Nblk(v.recorder.ring);
    } else if e == RecIntr {
      PlayManySound(v.player, Nblk(v.player.ring));
      kp := One(v.offs + 1 >= Nblk(v.player.ring));
      assert Times(Nblk(v.player.ring), 1) == Nblk(v.player.ring);
    } else if e == Reading {
      ReaderSound(v.recorder, 0);
    }
  }

  lemma MovedNot(v: View)
    requires Running(v)
    ensures Moved(v, v, 0, 0, 0, 0)
  {
  }

  lemma MovedStep(v: View, u: View, e: Event, w: View, p: nat, r: nat, kp: nat, kr: nat) returns (kp': nat, kr': nat)
    requires Sound(u) && Settled(u) && Moved(v, u, p, r, kp, kr) && w == Step(u, e)
    ensures Moved(v, w, p + One(e == PlayIntr), r + One(e == RecIntr), kp', kr')
  {
    var jp, jr := StepCounts(u, e, w);
    MovedOn(v, u, w, p, r, kp, kr, One(e == PlayIntr), One(e == RecIntr), jp, jr);
    return kp + jp, kr + jr;
  }

  /** In every run, blocks played are the play interrupts plus whole rings, and so for recording. */
  lemma {:induction false} CountersFollow(v: View, es: seq<Event>) returns (kp: nat, kr: nat)
    requires Sound(v) && Settled(v) && Running(v)
    ensures Moved(v, Steps(v, es), Count(es, PlayIntr), Count(es, RecIntr), kp, kr)
  {
    if es == [] {
      kp, kr := 0, 0;
      MovedNot(v);
    } else {
      var before, e := es[..|es| - 1], es[|es| - 1];
      kp, kr := CountersFollow(v, before);
      kp, kr :=
        MovedStep(v, Steps(v, before), e, Steps(v, es), Count(before, PlayIntr), Count(before, RecIntr), kp, kr);
    }
  }

  /** A device that is idle or quiesced stays as it is, whatever interrupts come. */
  lemma {:induction false} StillDevice(v: View, es: seq<Event>)
    requires Sound(v) && Settled(v) && (v.quiesced || !v.active)
    requires forall i :: 0 <= i < |es| ==> es[i].PlayIntr? || es[i].RecIntr?
    ensures Steps(v, es) == v
  {
    if es == [] {
    } else {
      StillDevice(v, es[..|es| - 1]);
    }
  }

  // ----- What is written and read -----

  /** A write of what was reserved, undisturbed: so many bytes more are there to play, and nothing else has changed. */
  lemma WriteArrives(v: View, n: nat)
    requires Sound(v) && Settled(v) && v.playing && n <= WriteBlock(v.player.ring).1
    ensures var p := v.player;
      Steps(v, [Reserving, Writing(n)])
        == v.(player := Player(p.ring.(used := p.ring.used + n), p.account.(wrote := p.account.wrote + n), Free))
  {
    StepsTwo(v, Reserving, Writing(n));
  }

  /** A read of what was taken, undisturbed: so many bytes less are there, from the next position on. */
  lemma ReadDeparts(v: View, n: nat)
    requires Sound(v) && Settled(v) && v.recording && n <= ReadBlock(v.recorder.ring).1
    ensures var b := v.recorder.ring;
      var next := if b.start + n == b.len then 0 else b.start + n;
      Steps(v, [Taking(n), Reading])
        == v.(recorder := Recorder(b.(used := b.used - n, start := next),
                                   v.recorder.account.(read := v.recorder.account.read + n), Free))
  {
    StepsTwo(v, Taking(n), Reading);
  }

  lemma StepsTwo(v: View, e: Event, f: Event)
    requires Sound(v) && Settled(v)
    ensures Steps(v, [e, f]) == Step(Step(v, e), f)
  {
    assert [] + [e] == [e] && [e] + [f] == [e, f];
    StepsLast(v, [], e);
    StepsLast(v, [e], f);
  }

  /** Bytes an event puts into the play ring: a write goes in whole, or not at all for want of a reservation. */
  ghost function WrittenBy(v: View, e: Event): nat {
    if v.playing && e.Writing? && v.player.hold.Held? && e.n <= v.player.hold.count then e.n else 0
  }

  /** Bytes an event takes off the record ring: all that the reader took. */
  ghost function ReadBy(v: View, e: Event): nat {
    if v.recording && e.Reading? && v.recorder.hold.Held? then v.recorder.hold.count else 0
  }

  ghost function AllWritten(v: View, es: seq<Event>): nat
    requires Sound(v) && Settled(v)
  {
    if es == [] then 0
    else AllWritten(v, es[..|es| - 1]) + WrittenBy(Steps(v, es[..|es| - 1]), es[|es| - 1])
  }

  ghost function AllRead(v: View, es: seq<Event>): nat
    requires Sound(v) && Settled(v)
  {
    if es == [] then 0
    else AllRead(v, es[..|es| - 1]) + ReadBy(Steps(v, es[..|es| - 1]), es[|es| - 1])
  }

  /** The accounts of `w` are those of `v`, with so much more written and read, on rings of the same blocks. */
  ghost predicate Transferred(v: View, w: View, wrote: nat, read: nat) {
    && w.playing == v.playing && w.recording == v.recording && w.active == v.active
    && w.player.account.wrote == v.player.account.wrote + wrote && w.player.ring.blksz == v.player.ring.blksz
    && w.recorder.account.read == v.recorder.account.read + read && w.recorder.ring.blksz == v.recorder.ring.blksz
    && w.recorder.account.initial == v.recorder.account.initial
  }

  lemma {:induction false} PlayManyTransfers(p: Player, n: nat)
    ensures PlayMany(p, n).account.wrote == p.account.wrote && PlayMany(p, n).ring.blksz == p.ring.blksz
  {
    if n == 0 {
    } else {
      PlayManyTransfers(p, n - 1);
    }
  }

  lemma {:induction false} RecManyTransfers(r: Recorder, n: nat)
    ensures RecMany(r, n).account.read == r.account.read && RecMany(r, n).ring.blksz == r.ring.blksz
    ensures RecMany(r, n).account.initial == r.account.initial
  {
    if n == 0 {
    } else {
      RecManyTransfers(r, n - 1);
    }
  }

  lemma StepTransfers(v: View, e: Event, w: View)
    requires Sound(v) && Settled(v) && w == Step(v, e)
    ensures Transferred(v, w, WrittenBy(v, e), ReadBy(v, e))
  {
    match e
    case PlayIntr => RecManyTransfers(v.recorder, Nblk(v.recorder.ring));
    case RecIntr => PlayManyTransfers(v.player, Nblk(v.player.ring));
    case _ =>
  }

  lemma TransferredOn(u: View, v: View, w: View, wrote: nat, read: nat, wrote': nat, read': nat)
    requires Transferred(u, v, wrote, read) && Transferred(v, w, wrote', read')
    ensures Transferred(u, w, wrote + wrote', read + read')
  {
  }

  /** In every run, what is accounted for as written and read is what the writes and reads asked for. */
  lemma {:induction false} TransfersFollow(v: View, es: seq<Event>)
    requires Sound(v) && Settled(v)
    ensures Transferred(v, Steps(v, es), AllWritten(v, es), AllRead(v, es))
  {
    if es == [] {
    } else {
      var before, e := es[..|es| - 1], es[|es| - 1];
      var u := Steps(v, before);
      TransfersFollow(v, before);
      StepTransfers(u, e, Steps(v, es));
      TransferredOn(v, u, Steps(v, es), AllWritten(v, before), AllRead(v, before), WrittenBy(u, e), ReadBy(u, e));
    }
  }

  /**
   * Conservation over every run: what was in the play ring and what the writes put in is in the ring or played,
   * but for what underruns made up; what was recorded is in the ring, read, or dropped by overruns.
   */
  lemma RunConserves(v: View, es: seq<Event>)
    requires Sound(v) && Settled(v) && v.active
    ensures var w := Steps(v, es);
      && (v.playing ==>
            w.player.ring.used + Times(v.player.ring.blksz, w.player.account.played) + v.player.account.lost
              == v.player.ring.used + Times(v.player.ring.blksz, v.player.account.played) + w.player.account.lost
                 + AllWritten(v, es))
      && (v.recording ==>
            w.recorder.ring.used + AllRead(v, es) + w.recorder.account.dropped
              + Times(v.recorder.ring.blksz, v.recorder.account.recorded)
            == v.recorder.ring.used + v.recorder.account.dropped
              + Times(v.recorder.ring.blksz, w.recorder.account.recorded))
  {
    TransfersFollow(v, es);
  }

  // ----- The code -----

  lemma OneTurn(b: Ring)
    requires Frame(b)
    ensures Nblk(b) > 0 && Rem(Nblk(b), Nblk(b)) == 0
  {
    BlocksFit(b, 0);
    assert Rem(0, Nblk(b)) == 0;
  }

  /** Turn `k` of a catch-up: an interrupt that does not itself have to catch up. */
  lemma CatchUpRecordTurn(v: View, todo: int, k: nat)
    requires Sound(v) && Running(v) && todo > 0
    ensures Nblk(v.player.ring) > 0 && Nblk(RecMany(v.recorder, k).ring) == Nblk(v.recorder.ring)
    ensures Sound(v.(offs := -todo, recorder := RecMany(v.recorder, k)))
    ensures OnRec(v.(offs := -todo, recorder := RecMany(v.recorder, k)))
      == v.(offs := -(todo - 1), recorder := RecMany(v.recorder, k + 1))
  {
    PlayOneSound(v.player);
    RecManySound(v.recorder, k);
  }

  lemma CatchUpPlayTurn(v: View, todo: int, k: nat)
    requires Sound(v) && Running(v) && todo > 0
    ensures Nblk(v.recorder.ring) > 0 && Nblk(PlayMany(v.player, k).ring) == Nblk(v.player.ring)
    ensures Sound(v.(offs := todo, player := PlayMany(v.player, k)))
    ensures OnPlay(v.(offs := todo, player := PlayMany(v.player, k)))
      == v.(offs := todo - 1, player := PlayMany(v.player, k + 1))
  {
    RecOneSound(v.recorder);
    PlayManySound(v.player, k);
  }

  /** Sizes that `audio_setpar` computes. */
  ghost predicate Sized(q: AudioParams.Request, p: AudioParams.Par) {
    && AudioParams.ValidRequest(q)
    && (q.play.Some? ==> AudioParams.PlayFits(q.play.value, q.mult, p) && q.play.value.datalen < SIZE_MAX1)
    && (q.rec.Some? ==> AudioParams.RecFits(q.rec.value, q.mult, p) && q.rec.value.datalen < SIZE_MAX1)
  }

  lemma SizedRings(q: AudioParams.Request, p: AudioParams.Par)
    requires Sized(q, p)
    ensures q.play.Some? ==> PlaySound(Player(Ring(p.playLen, p.playBlksz, 0, 0, 0, 0), Account(0, 0, 0), Free), false)
    ensures q.rec.Some? ==>
      var r := Recorder(Ring(p.recLen, p.recBlksz, 0, 0, 0, 0), RecAccount(0, 0, 0, 0), Free); RecSound(r) && Tidy(r)
  {
    AudioParams.ParMakesRings(q, p);
  }

  class Device {
    const playing: bool
    const recording: bool
    var play: Ring
    var rec: Ring
    var active: bool
    var quiesced: bool
    var offs: int
    // What writer and reader hold between their two critical sections.
    var playHold: Hold
    var recHold: Hold

    ghost var playAccount: Account
    ghost var recAccount: RecAccount

    ghost function Now(): View
      reads this
    {
      View(playing, recording, active, quiesced,
           Player(play, playAccount, playHold), Recorder(rec, recAccount, recHold), offs)
    }

    /** Idle, the rings sized by `audio_setpar` and emptied by `audio_clear`. */
    constructor (q: AudioParams.Request, p: AudioParams.Par)
      requires Sized(q, p)
      ensures playing == q.play.Some? && recording == q.rec.Some? && !active && !quiesced
      ensures play == Ring(p.playLen, p.playBlksz, 0, 0, 0, 0) && rec == Ring(p.recLen, p.recBlksz, 0, 0, 0, 0)
      ensures playHold == recHold == Free
      ensures Sound(Now()) && Settled(Now()) && (recording ==> Tidy(Now().recorder))
    {
      SizedRings(q, p);
      playing, recording, active, quiesced, offs := q.play.Some?, q.rec.Some?, false, false, 0;
      play, rec := Ring(p.playLen, p.playBlksz, 0, 0, 0, 0), Ring(p.recLen, p.recBlksz, 0, 0, 0, 0);
      playHold, recHold, playAccount, recAccount := Free, Free, Account(0, 0, 0), RecAccount(0, 0, 0, 0);
    }

    /**
     * `audio_pintr`. It may find itself called from `audio_rintr`, `offs` still up to a whole ring ahead;
     * only a call from outside can find recording behind, so the handlers do not nest any deeper.
     */
    method PlayInterrupt()
      requires Sound(Now())
      requires Duplex(Now()) ==> -Nblk(rec) < offs <= Nblk(play)
      modifies this
      decreases if Duplex(Now()) && offs - 1 <= -Nblk(rec) then 1 else 0, 2
      ensures Now() == OnPlay(old(Now())) && Sound(Now())
    {
      OnPlaySound(Now());
      if !playing || !active || quiesced {
        return;
      }
      if recording {
        GetAheadPlaying();
      }
      playAccount, playHold := Tally(play, playAccount), Slip(play, playHold);
      play := PlayBlock(play);
    }

    /** `audio_rintr` */
    method RecordInterrupt()
      requires Sound(Now())
      requires Duplex(Now()) ==> -Nblk(rec) <= offs < Nblk(play)
      modifies this
      decreases if Duplex(Now()) && offs + 1 >= Nblk(play) then 1 else 0, 2
      ensures Now() == OnRec(old(Now())) && Sound(Now())
    {
      OnRecSound(Now());
      if !recording || !active || quiesced {
        return;
      }
      if playing {
        GetAheadRecording();
      }
      recAccount, recHold := RecTally(rec, recAccount), RecSlip(rec, recHold);
      rec := RecBlock(rec);
    }

    method GetAheadPlaying()
      requires Sound(Now()) && Running(Now()) && -Nblk(rec) < offs <= Nblk(play)
      modifies this
      decreases if offs - 1 <= -Nblk(rec) then 1 else 0, 1
      ensures Now() == PlayAhead(old(Now())) && Sound(Now())
    {
      PlayAheadSound(Now());
      offs := offs - 1;
      var nblk := Nblk(rec);
      var todo := -offs;
      if todo >= nblk {
        OneTurn(rec);
        CatchUpRecord(todo - Rem(todo, nblk));
      }
    }

    method GetAheadRecording()
      requires Sound(Now()) && Running(Now()) && -Nblk(rec) <= offs < Nblk(play)
      modifies this
      decreases if offs + 1 >= Nblk(play) then 1 else 0, 1
      ensures Now() == RecordAhead(old(Now())) && Sound(Now())
    {
      RecordAheadSound(Now());
      offs := offs + 1;
      var nblk := Nblk(play);
      var todo := offs;
      if todo >= nblk {
        OneTurn(play);
        CatchUpPlay(todo - Rem(todo, nblk));
      }
    }

    /** The loop in `audio_pintr`: as many record interrupts as the record ring has blocks. */
    method CatchUpRecord(blocks: int)
      requires Sound(Now()) && Running(Now()) && blocks == -offs == Nblk(rec)
      modifies this
      decreases 1, 0
      ensures Now() == old(Now()).(offs := 0, recorder := RecMany(old(Now()).recorder, blocks))
    {
      ghost var v := Now();
      ghost var done: nat := 0;
      var todo := blocks;
      while todo > 0
        invariant 0 <= todo == blocks - done
        invariant Now() == v.(offs := -todo, recorder := RecMany(v.recorder, done))
        decreases todo
      {
        RecordTurn(v, todo, done);
        done := done + 1;
        todo := todo - 1;
      }
    }

    method RecordTurn(ghost v: View, todo: int, ghost k: nat)
      requires Sound(v) && Running(v) && 0 < todo <= Nblk(v.recorder.ring)
      requires Now() == v.(offs := -todo, recorder := RecMany(v.recorder, k))
      modifies this
      decreases 0, 3
      ensures Now() == v.(offs := -(todo - 1), recorder := RecMany(v.recorder, k + 1))
    {
      CatchUpRecordTurn(v, todo, k);
      RecordInterrupt();
    }

    /** The loop in `audio_rintr`: as many play interrupts as the play ring has blocks. */
    method CatchUpPlay(blocks: int)
      requires Sound(Now()) && Running(Now()) && blocks == offs == Nblk(play)
      modifies this
      decreases 1, 0
      ensures Now() == old(Now()).(offs := 0, player := PlayMany(old(Now()).player, blocks))
    {
      ghost var v := Now();
      ghost var done: nat := 0;
      var todo := blocks;
      while todo > 0
        invariant 0 <= todo == blocks - done
        invariant Now() == v.(offs := todo, player := PlayMany(v.player, done))
        decreases todo
      {
        PlayTurn(v, todo, done);
        done := done + 1;
        todo := todo - 1;
      }
    }

    method PlayTurn(ghost v: View, todo: int, ghost k: nat)
      requires Sound(v) && Running(v) && 0 < todo <= Nblk(v.player.ring)
      requires Now() == v.(offs := todo, player := PlayMany(v.player, k))
      modifies this
      decreases 0, 3
      ensures Now() == v.(offs := todo - 1, player := PlayMany(v.player, k + 1))
    {
      CatchUpPlayTurn(v, todo, k);
      PlayInterrupt();
    }

    /**
     * `audio_start`. The state it leaves is sound exactly when a whole block is there to play; the
     * write and drain paths see to that, a start from `audio_read` does not.
     */
    method Start()
      requires Sound(Now()) && !active
      modifies this
      ensures active && offs == 0 && quiesced == old(quiesced)
      ensures playHold == old(playHold) && recHold == old(recHold)
      ensures play == old(play).(pos := 0, xrun := 0) && rec == old(rec).(pos := 0, xrun := 0)
      ensures playAccount == Account(0, old(play).used, 0) && recAccount == RecAccount(0, 0, 0, old(rec).used)
      ensures Sound(Now()) <==> (playing ==> play.blksz <= play.used)
      ensures Sound(Now()) ==> Settled(Now())
    {
      StartSound(Now().player, Now().recorder);
      active := true;
      play := play.(pos := 0, xrun := 0);
      rec := rec.(pos := 0, xrun := 0);
      offs := 0;
      playAccount, recAccount := Account(0, play.used, 0), RecAccount(0, 0, 0, rec.used);
    }

    /** The padding loop of `audio_drain`: it fills the ring in at most two turns. */
    method Pad() returns (turns: nat)
      requires Sound(Now()) && playing && !active && playHold.Free?
      modifies this`play
      ensures Sound(Now()) && play == old(play).(used := old(play).len) && turns <= 2
    {
      turns := 0;
      while true
        invariant Sound(Now()) && play == old(play).(used := play.used) && turns <= 2
        invariant turns >= 1 && play.used < play.len ==> End(play) == 0
        invariant turns == 2 ==> play.used == play.len
        decreases play.len - play.used
      {
        var r := WriteBlock(play);
        if r.1 == 0 {
          return;
        }
        play := Commit(play, r.1);
        turns := turns + 1;
      }
    }

    /** `audio_write` and `audio_read` under the lock, before the copy, and under the lock again after it. */
    method Access(e: Event)
      requires Sound(Now()) && Settled(Now()) && !e.PlayIntr? && !e.RecIntr?
      modifies this`play, this`rec, this`playHold, this`recHold, this`playAccount, this`recAccount
      ensures Now() == Step(old(Now()), e)
    {
      match e {
        case Reserving =>
          if playing {
            var r := WriteBlock(play);
            playHold := Held(r.0, r.1, 0);
          }
        case Writing(n) =>
          if playing && playHold.Held? && n <= playHold.count {
            play := Commit(play, n);
            playAccount := playAccount.(wrote := playAccount.wrote + n);
            playHold := Free;
          }
        case Taking(n) =>
          if recording && n <= ReadBlock(rec).1 {
            recHold := Held(rec.start, n, 0);
          }
        case Reading =>
          if recording && recHold.Held? {
            recAccount := recAccount.(read := recAccount.read + recHold.count);
            rec := Discard(rec, recHold.count);
            recHold := Free;
          }
      }
    }

    /** Whatever happens next to the device. */
    method Handle(e: Event)
      requires Sound(Now()) && Settled(Now())
      modifies this
      ensures Now() == Step(old(Now()), e) && active == old(active)
    {
      match e {
        case PlayIntr => PlayInterrupt();
        case RecIntr => RecordInterrupt();
        case _ => Access(e);
      }
    }

    /**
     * Every run of interrupts, writes and reads: the handlers end, the device is where the events take
     * it, play and record stay in step, and nothing is miscounted.
     */
    method Run(es: seq<Event>) returns (ghost kp: nat, ghost kr: nat)
      requires Sound(Now()) && Settled(Now())
      modifies this
      ensures Now() == Steps(old(Now()), es) && Sound(Now()) && Settled(Now())
      ensures active == old(active) && TidyAfter(old(Now()), es, Now())
      ensures Transferred(old(Now()), Now(), AllWritten(old(Now()), es), AllRead(old(Now()), es))
      ensures old(Running(Now())) ==> Moved(old(Now()), Now(), Count(es, PlayIntr), Count(es, RecIntr), kp, kr)
    {
      ghost var v := Now();
      for i := 0 to |es|
        invariant Now() == Steps(v, es[..i]) && active == old(active)
      {
        assert es[..i + 1][..i] == es[..i];
        Handle(es[i]);
      }
      assert es[..|es|] == es;
      kp, kr := 0, 0;
      if Running(v) {
        kp, kr := CountersFollow(v, es);
      }
      RunTidyAfter(v, es);
      TransfersFollow(v, es);
    }
  }

  /** Padded, as `audio_drain` does it, and started; but not while a writer is at its copy. */
  method PadAndStart(d: Device)
    requires Sound(d.Now()) && Settled(d.Now()) && !d.active
    modifies d
    ensures Sound(d.Now()) && Settled(d.Now()) && TidyAfter(old(d.Now()), [], d.Now())
    ensures d.active <==> !(d.playing && old(d.playHold).Held?)
  {
    if d.playing {
      if d.playHold.Held? {
        return;
      }
      var turns := d.Pad();
    }
    d.Start();
  }

  /**
   * A device from set-up to any run: configured, written to and read from while idle, padded and started,
   * then left to whatever happens.
   */
  method Use(q: AudioParams.Request, idle: seq<Event>, es: seq<Event>) returns (r: AudioParams.Result, d: Device?)
    requires AudioParams.WellFormed(q)
    requires (q.play.Some? ==> q.play.value.datalen < SIZE_MAX1) && (q.rec.Some? ==> q.rec.value.datalen < SIZE_MAX1)
    ensures r.Ok? <==> d != null
    ensures d != null ==> d.playing == q.play.Some? && d.recording == q.rec.Some? && Sound(d.Now()) && Settled(d.Now())
    ensures d != null && q.rec.Some? ==> r.par.recBlksz > 0
    ensures d != null && q.rec.Some? && WholeReads(idle, r.par.recBlksz) && WholeReads(es, r.par.recBlksz) ==>
      d.rec.used < d.rec.len == r.par.recLen
  {
    r := AudioParams.SetPar(q);
    d := null;
    if r.Ok? {
      d := new Device(q, r.par);
      var kp, kr := d.Run(idle);
      PadAndStart(d);
      kp, kr := d.Run(es);
    }
  }

  lemma StartSound(p: Player, r: Recorder)
    ensures PlaySound(p, false) ==>
      var b := p.ring.(pos := 0, xrun := 0);
      PlaySound(Player(b, Account(0, b.used, 0), p.hold), true) <==> b.blksz <= b.used
    ensures RecSound(r) ==>
      var b := r.ring.(pos := 0, xrun := 0);
      RecSound(Recorder(b, RecAccount(0, 0, 0, b.used), r.hold))
    ensures PlaySound(p, false) ==> Nblk(p.ring.(pos := 0, xrun := 0)) > 0
    ensures RecSound(r) ==> Nblk(r.ring.(pos := 0, xrun := 0)) > 0
  {
    if p.hold.Held? {
      AdvanceSame(p.ring, p.ring.(pos := 0, xrun := 0), p.hold.at, p.hold.slips);
    }
    if r.hold.Held? {
      AdvanceSame(r.ring, r.ring.(pos := 0, xrun := 0), r.hold.at, r.hold.slips);
    }
    if PlaySound(p, false) {
      BlocksFit(p.ring, 0);
    }
    if RecSound(r) {
      BlocksFit(r.ring, 0);
    }
  }
}
