/** The evidence store of `audit/evidence.py`: an append-only event file with torn-tail repair and
    content-addressed objects, under crashes that leave any prefix of the last write. */
module EvidenceLog {
  import opened Json
  import opened Common

  newtype byte = b: int | 0 <= b < 256
  type Bytes = seq<byte>

  const NL: byte := 10
  const CR: byte := 13
  const TAB: byte := 9
  const SPACE: byte := 32

  datatype Event = Event(eventId: string, bundleDigest: string, profile: string, subjectDigest: string)

  datatype Manifest = Manifest(profile: string, subjectDigest: string, body: string)

  datatype Bundle = Bundle(manifest: Manifest, digest: string)

  /** The encodings the store relies on: the event line and the manifest digest. */
  datatype World = World(encode: Event -> Bytes, decode: Bytes -> Option<Event>, digest: Manifest -> string)

  predicate Terminator(b: byte) { b == NL || b == CR }

  predicate BlankByte(b: byte) { b == SPACE || TAB <= b <= CR }

  predicate BlankLine(line: Bytes) { forall i :: 0 <= i < |line| ==> BlankByte(line[i]) }

  predicate OneLine(text: Bytes) { forall i :: 0 <= i < |text| ==> !Terminator(text[i]) }

  /** What JSON gives the store: an event is one non-blank line that decodes to itself, with or
      without its newline, and no proper prefix of it decodes to anything. */
  ghost predicate LawfulFor(w: World, e: Event) {
    && w.encode(e) != [] && !BlankByte(w.encode(e)[0]) && OneLine(w.encode(e))
    && w.decode(w.encode(e)) == Some(e) && w.decode(w.encode(e) + [NL]) == Some(e)
    && forall k :: 0 <= k < |w.encode(e)| ==> w.decode(w.encode(e)[..k]) == None
  }

  ghost predicate Lawful(w: World) { forall e: Event :: LawfulFor(w, e) }

  // ----- reading the file -----

  /** Length of the first line of `raw` with its terminator: `\n`, `\r` or `\r\n`. */
  function FirstLine(raw: Bytes): (n: nat)
    ensures n <= |raw| && (raw != [] ==> n > 0)
  {
    if raw == [] then 0
    else if raw[0] == CR && |raw| > 1 && raw[1] == NL then 2
    else if Terminator(raw[0]) then 1
    else 1 + FirstLine(raw[1..])
  }

  /** Python's `raw.splitlines(keepends=True)` on bytes. */
  function SplitLines(raw: Bytes): seq<Bytes> {
    if raw == [] then [] else [raw[..FirstLine(raw)]] + SplitLines(raw[FirstLine(raw)..])
  }

  /** One line: its terminator, if it has one, is at the end, a newline after a return belonging to it. */
  predicate IsLine(line: Bytes) {
    line != [] && forall i :: 0 <= i < |line| - 1 ==> GoesOn(line, i)
  }

  predicate GoesOn(line: Bytes, i: nat)
    requires i < |line| - 1
  {
    line[i] != 10 && (line[i] == 13 ==> i == |line| - 2 && line[i + 1] == 10)
  }

  function Flat(lines: seq<Bytes>): Bytes { if lines == [] then [] else lines[0] + Flat(lines[1..]) }

  /** A line ends before byte `n`, and not between a return and its newline. */
  predicate EndsAt(raw: Bytes, n: nat) {
    0 < n < |raw| && (raw[n - 1] == 10 || (raw[n - 1] == 13 && raw[n] != 10))
  }

  lemma {:induction false} FirstLineIs(raw: Bytes)
    requires raw != []
    ensures IsLine(raw[..FirstLine(raw)])
    ensures FirstLine(raw) < |raw| ==> EndsAt(raw, FirstLine(raw))
  {
    var n := FirstLine(raw);
    var tail := raw[1..];
    if raw[0] == CR && |raw| > 1 && raw[1] == NL {
      assert raw[..n] == [CR, NL];
    } else if Terminator(raw[0]) || tail == [] {
      assert n == 1;
    } else {
      FirstLineIs(tail);
      var line, rest := raw[..n], tail[..n - 1];
      assert tail[n - 2] == raw[n - 1] && (n < |raw| ==> tail[n - 1] == raw[n]);
      assert line == [raw[0]] + rest;
      forall i | 0 <= i < |line| - 1 ensures GoesOn(line, i) { assert i > 0 ==> GoesOn(rest, i - 1); }
    }
  }

  /** The lines of a file: put together they are the file, each is one line, and each but the last is ended. */
  lemma {:induction false} LinesAre(raw: Bytes)
    ensures Flat(SplitLines(raw)) == raw
    ensures forall line :: line in SplitLines(raw) ==> IsLine(line)
    ensures forall i :: 0 <= i < |SplitLines(raw)| - 1 ==>
              EndsAt(SplitLines(raw)[i] + SplitLines(raw)[i + 1], |SplitLines(raw)[i]|)
  {
    if raw != [] {
      var n := FirstLine(raw);
      FirstLineIs(raw);
      LinesAre(raw[n..]);
      var lines, rest := SplitLines(raw), SplitLines(raw[n..]);
      assert lines[0] == raw[..n] && lines[1..] == rest && raw == raw[..n] + raw[n..];
      forall i | 0 <= i < |lines| - 1 ensures EndsAt(lines[i] + lines[i + 1], |lines[i]|) {
        if i == 0 {
          assert rest[0] in rest && rest[0][0] == raw[n];
        } else {
          assert lines[i] == rest[i - 1] && lines[i + 1] == rest[i];
        }
      }
    }
  }

  predicate Complete(line: Bytes) { line != [] && Terminator(line[|line| - 1]) }

  /** What a read finds: the events, how many bytes to keep, whether the last one lacks its newline. */
  datatype Scan = Good(events: seq<Event>, keep: nat, newline: bool) | Corrupt

  function Before(scan: Scan, events: seq<Event>, n: nat): Scan {
    if scan.Corrupt? then Corrupt else Good(events + scan.events, n + scan.keep, scan.newline)
  }

  function ScanLines(w: World, lines: seq<Bytes>, repair: bool): Scan {
    if lines == [] then Good([], 0, false)
    else
      var line, last := lines[0], |lines| == 1;
      if BlankLine(line) then Before(ScanLines(w, lines[1..], repair), [], |line|)
      else match w.decode(line)
        case None => if repair && last && !Complete(line) then Good([], 0, false) else Corrupt
        case Some(e) =>
          if repair && last && !Complete(line) then Good([e], |line|, true)
          else Before(ScanLines(w, lines[1..], repair), [e], |line|)
  }

  function ScanFile(w: World, raw: Bytes, repair: bool): Scan { ScanLines(w, SplitLines(raw), repair) }

  function Repaired(raw: Bytes, scan: Scan): Bytes
    requires scan.Good? && scan.keep <= |raw|
  {
    raw[..scan.keep] + if scan.newline then [NL] else []
  }

  /** `_read_events`: the loop over the lines, with `events` and `valid_bytes` as it updates them. */
  method ReadLines(w: World, lines: seq<Bytes>, repair: bool) returns (scan: Scan)
    ensures scan == ScanLines(w, lines, repair)
  {
    var events: seq<Event>, valid: nat := [], 0;
    for i := 0 to |lines|
      invariant ScanLines(w, lines, repair) == Before(ScanLines(w, lines[i..], repair), events, valid)
    {
      var line := lines[i];
      assert lines[i..][0] == line && lines[i..][1..] == lines[i + 1..];
      if !BlankLine(line) {
        match w.decode(line) {
          case None =>
            if repair && i == |lines| - 1 && !Complete(line) {
              assert events + [] == events;
              return Good(events, valid, false);
            }
            return Corrupt;
          case Some(e) =>
            events := events + [e];
            if repair && i == |lines| - 1 && !Complete(line) {
              assert ScanLines(w, lines[i..], repair) == Good([e], |line|, true);
              return Good(events, valid + |line|, true);
            }
            assert forall t: seq<Event> :: events + t == events[..|events| - 1] + ([e] + t);
        }
      } else {
        assert forall t: seq<Event> :: events + ([] + t) == events + t;
      }
      valid := valid + |line|;
    }
    assert events + [] == events;
    return Good(events, valid, false);
  }

  lemma {:induction false} SplitLinesLength(raw: Bytes)
    ensures Total(SplitLines(raw)) == |raw|
  {
    if raw != [] { SplitLinesLength(raw[FirstLine(raw)..]); }
  }

  function Total(lines: seq<Bytes>): nat { if lines == [] then 0 else |lines[0]| + Total(lines[1..]) }

  lemma {:induction false} ScanKeeps(w: World, lines: seq<Bytes>, repair: bool)
    ensures ScanLines(w, lines, repair).Good? ==> ScanLines(w, lines, repair).keep <= Total(lines)
  {
    if lines != [] { ScanKeeps(w, lines[1..], repair); }
  }

  lemma ScanFits(w: World, raw: Bytes, repair: bool)
    ensures ScanFile(w, raw, repair).Good? ==> ScanFile(w, raw, repair).keep <= |raw|
  {
    SplitLinesLength(raw);
    ScanKeeps(w, SplitLines(raw), repair);
  }

  // ----- appending -----

  datatype Disk = Disk(events: Bytes, objects: map<string, Manifest>)

  datatype Result = Acknowledged(digest: string) | Violation

  function EventOf(bundle: Bundle, id: string): Event {
    Event(id, bundle.digest, bundle.manifest.profile, bundle.manifest.subjectDigest)
  }

  function Find(events: seq<Event>, id: string): (r: Option<Event>)
    ensures r.Some? ==> r.value in events && r.value.eventId == id
    ensures r.None? ==> forall e :: e in events ==> e.eventId != id
  {
    if events == [] then None else if events[0].eventId == id then Some(events[0]) else Find(events[1..], id)
  }

  function RepairedFile(w: World, raw: Bytes): Option<Bytes> {
    var scan := ScanFile(w, raw, true);
    if scan.Corrupt? then None else ScanFits(w, raw, true); Some(Repaired(raw, scan))
  }

  /** The append goes through once the file is readable: a known id names the same evidence, and the
      content address is free or holds this manifest. */
  predicate Accepts(w: World, d: Disk, bundle: Bundle, id: string) {
    && id != "" && bundle.digest == w.digest(bundle.manifest) && ScanFile(w, d.events, true).Good?
    && (match Find(ScanFile(w, d.events, true).events, id)
        case Some(prior) => prior == EventOf(bundle, id)
        case None => true)
    && (bundle.digest in d.objects ==> d.objects[bundle.digest] == bundle.manifest)
  }

  /** The disk and the answer `append` leaves. */
  function Appended(w: World, d: Disk, bundle: Bundle, id: string): (Disk, Result) {
    if id == "" || bundle.digest != w.digest(bundle.manifest) || RepairedFile(w, d.events).None? then (d, Violation)
    else
      var repaired := RepairedFile(w, d.events).value;
      if !Accepts(w, d, bundle, id) then (d.(events := repaired), Violation)
      else
        var isNew := Find(ScanFile(w, d.events, true).events, id).None?;
        (Disk(if isNew then repaired + w.encode(EventOf(bundle, id)) + [NL] else repaired,
              d.objects[bundle.digest := bundle.manifest]),
         Acknowledged(bundle.digest))
  }

  class EvidenceStore {
    const w: World
    var events: Bytes
    var objects: map<string, Manifest>

    constructor (w: World)
      ensures this.w == w && Disk(events, objects) == Disk([], map[])
    {
      this.w, events, objects := w, [], map[];
    }

    /** `_read_events`: with repair, a torn last line is cut off and a missing newline supplied. */
    method ReadEvents(repair: bool) returns (found: Option<seq<Event>>)
      modifies this`events
      ensures found == match ScanFile(w, old(events), repair) case Good(es, _, _) => Some(es) case Corrupt => None
      ensures found.Some? && repair ==> Some(events) == RepairedFile(w, old(events))
      ensures found.None? || !repair ==> events == old(events)
    {
      var scan := ReadLines(w, SplitLines(events), repair);
      ScanFits(w, events, repair);
      if scan.Corrupt? { return None; }
      if repair { events := Repaired(events, scan); }
      found := Some(scan.events);
    }

    method EnsureObject(bundle: Bundle) returns (ok: bool)
      modifies this`objects
      ensures ok <==> (bundle.digest in old(objects) ==> old(objects)[bundle.digest] == bundle.manifest)
      ensures objects == if ok then old(objects)[bundle.digest := bundle.manifest] else old(objects)
    {
      if bundle.digest in objects { return objects[bundle.digest] == bundle.manifest; }
      objects := objects[bundle.digest := bundle.manifest];
      ok := true;
    }

    method Append(bundle: Bundle, id: string) returns (r: Result)
      modifies this
      ensures (Disk(events, objects), r) == Appended(w, Disk(old(events), old(objects)), bundle, id)
    {
      if id == "" || bundle.digest != w.digest(bundle.manifest) { return Violation; }
      var known := ReadEvents(true);
      if known.None? { return Violation; }
      var prior := Find(known.value, id);
      if prior.Some? && prior.value != EventOf(bundle, id) { return Violation; }
      var ok := EnsureObject(bundle);
      if !ok { return Violation; }
      if prior.None? { events := events + w.encode(EventOf(bundle, id)) + [NL]; }
      r := Acknowledged(bundle.digest);
    }
  }

  // ----- crashes -----

  /** What a crash during `append` can leave: nothing done, the repair done, the object written, and
      then any prefix of the event line. */
  ghost predicate CrashLeaves(w: World, d: Disk, bundle: Bundle, id: string, after: Disk) {
    || after == d
    || (&& id != "" && bundle.digest == w.digest(bundle.manifest) && RepairedFile(w, d.events).Some?
        && var repaired := RepairedFile(w, d.events).value;
           || after == d.(events := repaired)
           || (&& Accepts(w, d, bundle, id)
               && var objects := d.objects[bundle.digest := bundle.manifest];
                  || after == Disk(repaired, objects)
                  || (&& Find(ScanFile(w, d.events, true).events, id).None?
                      && var line := w.encode(EventOf(bundle, id)) + [NL];
                         exists k :: 0 <= k <= |line| && after == Disk(repaired + line[..k], objects))))
  }

  datatype Step = Finish(bundle: Bundle, id: string) | Crash(bundle: Bundle, id: string, after: Disk)

  /** A run: the disk, the acknowledged events, and how many appends crashed. */
  datatype History = History(disk: Disk, acked: set<Event>, crashes: nat)

  ghost predicate Legal(w: World, h: History, step: Step) {
    step.Crash? ==> CrashLeaves(w, h.disk, step.bundle, step.id, step.after)
  }

  function Next(w: World, h: History, step: Step): History {
    match step
    case Crash(_, _, after) => History(after, h.acked, h.crashes + 1)
    case Finish(bundle, id) =>
      var (disk, r) := Appended(w, h.disk, bundle, id);
      History(disk, if r.Acknowledged? then h.acked + {EventOf(bundle, id)} else h.acked, h.crashes)
  }

  function Run(w: World, steps: seq<Step>): History {
    if steps == [] then History(Disk([], map[]), {}, 0)
    else Next(w, Run(w, steps[..|steps| - 1]), steps[|steps| - 1])
  }

  ghost predicate LegalRun(w: World, steps: seq<Step>) {
    steps == [] || (LegalRun(w, steps[..|steps| - 1]) && Legal(w, Run(w, steps[..|steps| - 1]), steps[|steps| - 1]))
  }

  // ----- the shape of the file -----

  function Lines(w: World, log: seq<Event>): Bytes {
    if log == [] then [] else Lines(w, log[..|log| - 1]) + w.encode(log[|log| - 1]) + [NL]
  }

  predicate Stored(w: World, d: Disk, e: Event) {
    && e.bundleDigest in d.objects
    && var m := d.objects[e.bundleDigest];
       w.digest(m) == e.bundleDigest && m.profile == e.profile && m.subjectDigest == e.subjectDigest
  }

  predicate UniqueIds(log: seq<Event>) {
    forall i, j :: 0 <= i < j < |log| ==> log[i].eventId != log[j].eventId
  }

  /** The file is whole lines and then, at most, the beginning of one more event. */
  datatype Shape = Shape(log: seq<Event>, tail: Bytes, pending: Event)

  ghost predicate Shaped(w: World, d: Disk, s: Shape) {
    d.events == Lines(w, s.log) + s.tail && s.tail <= w.encode(s.pending)
  }

  /** The events the next append reads. */
  function Known(w: World, s: Shape): seq<Event> {
    if s.tail != [] && s.tail == w.encode(s.pending) then s.log + [s.pending] else s.log
  }

  lemma {:induction false} FirstLineOfText(text: Bytes, rest: Bytes)
    requires OneLine(text)
    ensures FirstLine(text + [NL] + rest) == |text| + 1
    ensures FirstLine(text) == |text|
  {
    var raw := text + [NL] + rest;
    if text != [] {
      FirstLineOfText(text[1..], rest);
      assert raw[1..] == text[1..] + [NL] + rest;
    }
  }

  lemma ScanOneLine(w: World, e: Event, tail: Bytes, repair: bool)
    requires LawfulFor(w, e)
    ensures ScanFile(w, w.encode(e) + [NL] + tail, repair)
            == Before(ScanFile(w, tail, repair), [e], |w.encode(e)| + 1)
  {
    var text := w.encode(e);
    var rest := text + [NL] + tail;
    FirstLineOfText(text, tail);
    assert rest[..|text| + 1] == text + [NL] && rest[|text| + 1..] == tail;
    var lines := SplitLines(rest);
    assert lines[0] == text + [NL] && lines[1..] == SplitLines(tail);
    assert !BlankLine(lines[0]) by { assert lines[0][0] == text[0]; }
  }

  lemma BeforeTwice(scan: Scan, a: seq<Event>, b: seq<Event>, m: nat, n: nat)
    ensures Before(Before(scan, b, n), a, m) == Before(scan, a + b, m + n)
  {
    if scan.Good? { assert a + (b + scan.events) == a + b + scan.events; }
  }

  lemma {:induction false} ScanConcat(w: World, log: seq<Event>, tail: Bytes, repair: bool)
    requires Lawful(w)
    ensures ScanFile(w, Lines(w, log) + tail, repair) == Before(ScanFile(w, tail, repair), log, |Lines(w, log)|)
  {
    var scan := ScanFile(w, tail, repair);
    if log == [] {
      assert Lines(w, log) + tail == tail;
      if scan.Good? { assert [] + scan.events == scan.events; }
    } else {
      var front, e := log[..|log| - 1], log[|log| - 1];
      var rest := w.encode(e) + [NL] + tail;
      assert Lines(w, log) + tail == Lines(w, front) + rest;
      ScanConcat(w, front, rest, repair);
      assert LawfulFor(w, e);
      ScanOneLine(w, e, tail, repair);
      BeforeTwice(scan, front, [e], |Lines(w, front)|, |w.encode(e)| + 1);
      assert front + [e] == log;
    }
  }

  /** What the unfinished line reads as: nothing, an event without its newline, or no event. */
  lemma ScanTail(w: World, s: Shape, repair: bool)
    requires LawfulFor(w, s.pending) && s.tail <= w.encode(s.pending)
    ensures ScanFile(w, s.tail, repair) ==
            if s.tail == [] then Good([], 0, false)
            else if s.tail == w.encode(s.pending) then Good([s.pending], |s.tail|, repair)
            else if repair then Good([], 0, false)
            else Corrupt
  {
    if s.tail != [] {
      var text := w.encode(s.pending);
      assert s.tail == text[..|s.tail|];
      assert OneLine(s.tail) by { assert forall i :: 0 <= i < |s.tail| ==> s.tail[i] == text[i]; }
      FirstLineOfText(s.tail, []);
      var lines := SplitLines(s.tail);
      var n := FirstLine(s.tail);
      assert s.tail[..n] == s.tail && s.tail[n..] == [];
      assert lines == [s.tail[..n]] + SplitLines(s.tail[n..]);
      assert !BlankByte(s.tail[0]) && !Terminator(s.tail[|s.tail| - 1]);
      assert lines == [s.tail] && lines[1..] == [];
      assert !BlankLine(s.tail);
      assert ScanLines(w, lines[1..], repair) == Good([], 0, false);
      if s.tail == text {
        assert [s.pending] + [] == [s.pending];
        assert ScanLines(w, lines, repair) == Good([s.pending], |s.tail|, repair);
      } else {
        assert w.decode(text[..|s.tail|]) == None;
      }
    }
  }

  lemma ScanEnds(w: World, s: Shape, events: Bytes, scan: Scan)
    requires events == Lines(w, s.log) + s.tail
    requires scan ==
             Before(if s.tail != [] && s.tail == w.encode(s.pending) then Good([s.pending], |s.tail|, true)
                    else Good([], 0, false), s.log, |Lines(w, s.log)|)
    ensures scan.Good? && scan.events == Known(w, s) && scan.keep <= |events|
    ensures Repaired(events, scan) == Lines(w, Known(w, s))
  {
    var whole := Lines(w, s.log);
    if s.tail != [] && s.tail == w.encode(s.pending) {
      assert Known(w, s)[..|s.log|] == s.log;
      assert events[..|whole| + |s.tail|] == events;
    } else {
      assert s.log + [] == s.log;
      assert events[..|whole| + 0] + [] == whole;
    }
  }

  /** Reading recovers the complete events and repairs the file to exactly their lines. */
  lemma ScanShaped(w: World, d: Disk, s: Shape)
    requires Lawful(w) && Shaped(w, d, s)
    ensures ScanFile(w, d.events, true).Good? && ScanFile(w, d.events, true).events == Known(w, s)
    ensures RepairedFile(w, d.events) == Some(Lines(w, Known(w, s)))
  {
    ScanConcat(w, s.log, s.tail, true);
    assert LawfulFor(w, s.pending);
    ScanTail(w, s, true);
    ScanEnds(w, s, d.events, ScanFile(w, d.events, true));
  }

  /** A plain read returns every event of the file or fails, and fails exactly on a torn last line. */
  lemma PlainRead(w: World, d: Disk, s: Shape)
    requires Lawful(w) && Shaped(w, d, s)
    ensures ScanFile(w, d.events, false) ==
            if s.tail == [] || s.tail == w.encode(s.pending) then Good(Known(w, s), |d.events|, false) else Corrupt
  {
    ScanConcat(w, s.log, s.tail, false);
    assert LawfulFor(w, s.pending);
    ScanTail(w, s, false);
    assert s.log + [] == s.log;
  }

  // ----- the invariant of every run -----

  /** The known events have distinct ids and their objects are on disk. */
  ghost predicate Recorded(w: World, d: Disk, known: seq<Event>) {
    UniqueIds(known) && forall e :: e in known ==> Stored(w, d, e)
  }

  ghost predicate Sound(w: World, h: History, s: Shape) {
    && Shaped(w, h.disk, s)
    && Recorded(w, h.disk, Known(w, s))
    && (s.tail != [] ==> Recorded(w, h.disk, s.log + [s.pending]))
    && (forall e :: e in h.acked ==> e in Known(w, s))
    && |Known(w, s)| <= |h.acked| + h.crashes
  }

  /** Writing an object whose address was free or already held it keeps every other object. */
  lemma ObjectsGrow(w: World, d: Disk, bundle: Bundle, known: seq<Event>, after: Disk)
    requires Recorded(w, d, known)
    requires bundle.digest in d.objects ==> d.objects[bundle.digest] == bundle.manifest
    requires after.objects == d.objects || after.objects == d.objects[bundle.digest := bundle.manifest]
    ensures Recorded(w, after, known)
  {
  }

  lemma NewEventRecorded(w: World, d: Disk, bundle: Bundle, id: string, known: seq<Event>)
    requires Recorded(w, d, known) && Find(known, id).None?
    requires bundle.digest == w.digest(bundle.manifest) && bundle.digest in d.objects
             && d.objects[bundle.digest] == bundle.manifest
    ensures Recorded(w, d, known + [EventOf(bundle, id)])
  {
  }

  lemma LinesAppend(w: World, log: seq<Event>, e: Event)
    ensures Lines(w, log + [e]) == Lines(w, log) + w.encode(e) + [NL]
  {
    assert (log + [e])[..|log|] == log;
  }

  /** The shape after an append of a new event got as far as `k` bytes of its line. */
  lemma WrittenSoFar(w: World, known: seq<Event>, e: Event, k: nat, d: Disk) returns (t: Shape)
    requires k <= |w.encode(e)| + 1 && d.events == Lines(w, known) + (w.encode(e) + [NL])[..k]
    ensures Shaped(w, d, t)
    ensures Known(w, t) == known || Known(w, t) == known + [e]
    ensures k == |w.encode(e)| + 1 ==> Known(w, t) == known + [e]
    ensures t.tail != [] ==> t.log == known && t.pending == e
  {
    var line := w.encode(e) + [NL];
    if k == |line| {
      t := Shape(known + [e], [], e);
      LinesAppend(w, known, e);
      assert line[..k] == line && t.tail == [];
      assert Lines(w, t.log) + [] == Lines(w, known) + line;
    } else {
      t := Shape(known, line[..k], e);
      assert line[..k] == w.encode(e)[..k];
    }
  }

  lemma RepairedSound(w: World, h: History, s: Shape, e: Event) returns (t: Shape)
    requires Lawful(w) && Sound(w, h, s)
    ensures t == Shape(Known(w, s), [], e) && Known(w, t) == Known(w, s)
    ensures RepairedFile(w, h.disk.events) == Some(Lines(w, Known(w, s)))
    ensures ScanFile(w, h.disk.events, true).Good? && ScanFile(w, h.disk.events, true).events == Known(w, s)
    ensures Shaped(w, Disk(Lines(w, Known(w, s)), h.disk.objects), t)
  {
    ScanShaped(w, h.disk, s);
    t := Shape(Known(w, s), [], e);
    assert Lines(w, Known(w, s)) + [] == Lines(w, Known(w, s));
  }

  /** A finished append leaves its answer on disk: when it is refused ... */
  lemma RefusedKeepsSound(w: World, h: History, s: Shape, bundle: Bundle, id: string) returns (t: Shape)
    requires Lawful(w) && Sound(w, h, s) && !Accepts(w, h.disk, bundle, id)
    ensures Sound(w, Next(w, h, Finish(bundle, id)), t) && Known(w, t) == Known(w, s)
  {
    var whole := RepairedSound(w, h, s, EventOf(bundle, id));
    var next := Next(w, h, Finish(bundle, id));
    t := if next.disk == h.disk then s else whole;
    assert Recorded(w, next.disk, Known(w, s));
  }

  /** ... when its event is recorded already ... */
  lemma RepeatKeepsSound(w: World, h: History, s: Shape, bundle: Bundle, id: string) returns (t: Shape)
    requires Lawful(w) && Sound(w, h, s) && Accepts(w, h.disk, bundle, id) && Find(Known(w, s), id).Some?
    ensures Sound(w, Next(w, h, Finish(bundle, id)), t) && Known(w, t) == Known(w, s)
  {
    var e := EventOf(bundle, id);
    t := RepairedSound(w, h, s, e);
    var next := Next(w, h, Finish(bundle, id));
    ObjectsGrow(w, h.disk, bundle, Known(w, s), next.disk);
    assert e in Known(w, s);
    assert h.acked <= next.acked;
    SubsetSize(h.acked, next.acked);
  }

  lemma NewIsWritten(w: World, h: History, s: Shape, bundle: Bundle, id: string)
    requires Lawful(w) && Sound(w, h, s) && Accepts(w, h.disk, bundle, id) && Find(Known(w, s), id).None?
    ensures var e := EventOf(bundle, id);
            var objects := h.disk.objects[bundle.digest := bundle.manifest];
            Next(w, h, Finish(bundle, id))
            == History(Disk(Lines(w, Known(w, s)) + (w.encode(e) + [NL]), objects), h.acked + {e}, h.crashes)
  {
    var e := EventOf(bundle, id);
    var whole := RepairedSound(w, h, s, e);
    assert Lines(w, Known(w, s)) + w.encode(e) + [NL] == Lines(w, Known(w, s)) + (w.encode(e) + [NL]);
  }

  /** ... and when it is new. */
  lemma NewKeepsSound(w: World, h: History, s: Shape, bundle: Bundle, id: string) returns (t: Shape)
    requires Lawful(w) && Sound(w, h, s) && Accepts(w, h.disk, bundle, id) && Find(Known(w, s), id).None?
    ensures Sound(w, Next(w, h, Finish(bundle, id)), t) && Known(w, t) == Known(w, s) + [EventOf(bundle, id)]
  {
    var known, e := Known(w, s), EventOf(bundle, id);
    NewIsWritten(w, h, s, bundle, id);
    var disk := Next(w, h, Finish(bundle, id)).disk;
    ObjectsGrow(w, h.disk, bundle, known, disk);
    NewEventRecorded(w, disk, bundle, id, known);
    var line := w.encode(e) + [NL];
    assert line[..|line|] == line;
    t := WrittenSoFar(w, known, e, |line|, disk);
    assert e !in h.acked;
  }

  /** A finished append keeps the run sound, and only ever adds to what is known. */
  lemma FinishKeepsSound(w: World, h: History, s: Shape, bundle: Bundle, id: string) returns (t: Shape)
    requires Lawful(w) && Sound(w, h, s)
    ensures Sound(w, Next(w, h, Finish(bundle, id)), t)
    ensures Known(w, t) == if Accepts(w, h.disk, bundle, id) && Find(Known(w, s), id).None?
                           then Known(w, s) + [EventOf(bundle, id)] else Known(w, s)
  {
    if !Accepts(w, h.disk, bundle, id) {
      t := RefusedKeepsSound(w, h, s, bundle, id);
    } else if Find(Known(w, s), id).Some? {
      t := RepeatKeepsSound(w, h, s, bundle, id);
    } else {
      t := NewKeepsSound(w, h, s, bundle, id);
    }
  }

  /** A crash keeps the run sound and adds at most the event being written. */
  lemma CrashKeepsSound(w: World, h: History, s: Shape, bundle: Bundle, id: string, after: Disk) returns (t: Shape)
    requires Lawful(w) && Sound(w, h, s) && CrashLeaves(w, h.disk, bundle, id, after)
    ensures Sound(w, Next(w, h, Crash(bundle, id, after)), t)
    ensures Known(w, t) == Known(w, s) || Known(w, t) == Known(w, s) + [EventOf(bundle, id)]
  {
    var known, e := Known(w, s), EventOf(bundle, id);
    var whole := RepairedSound(w, h, s, e);
    if after == h.disk {
      t := s;
    } else if after == h.disk.(events := Lines(w, known)) {
      t := whole;
    } else {
      ObjectsGrow(w, h.disk, bundle, known, after);
      if after.events == Lines(w, known) {
        t := whole;
      } else {
        var line := w.encode(e) + [NL];
        var k :| 0 <= k <= |line|
          && after == Disk(Lines(w, known) + line[..k], h.disk.objects[bundle.digest := bundle.manifest]);
        NewEventRecorded(w, after, bundle, id, known);
        t := WrittenSoFar(w, known, e, k, after);
      }
    }
  }

  lemma {:induction false} RunIsSound(w: World, steps: seq<Step>) returns (s: Shape)
    requires Lawful(w) && LegalRun(w, steps)
    ensures Sound(w, Run(w, steps), s)
  {
    if steps == [] {
      s := Shape([], [], Event("", "", "", ""));
    } else {
      var before := RunIsSound(w, steps[..|steps| - 1]);
      var h := Run(w, steps[..|steps| - 1]);
      match steps[|steps| - 1] {
        case Finish(bundle, id) => s := FinishKeepsSound(w, h, before, bundle, id);
        case Crash(bundle, id, after) => s := CrashKeepsSound(w, h, before, bundle, id, after);
      }
    }
  }

  // ----- what a caller sees -----

  /** The events the next append, or the next repair, recovers. */
  function Recovered(w: World, d: Disk): seq<Event> {
    match ScanFile(w, d.events, true) case Good(events, _, _) => events case Corrupt => []
  }

  /** Crash safety: after any run of appends and crashes the file is readable, no id is recorded
      twice, every recorded event has its object, every acknowledged event is recorded, and the
      unacknowledged ones are at most one per crash. */
  lemma CrashSafety(w: World, steps: seq<Step>)
    requires Lawful(w) && LegalRun(w, steps)
    ensures var h := Run(w, steps);
            && ScanFile(w, h.disk.events, true).Good?
            && UniqueIds(Recovered(w, h.disk))
            && (forall e :: e in Recovered(w, h.disk) ==> Stored(w, h.disk, e))
            && (forall e :: e in h.acked ==> e in Recovered(w, h.disk))
            && |Recovered(w, h.disk)| <= |h.acked| + h.crashes
  {
    var s := RunIsSound(w, steps);
    ScanShaped(w, Run(w, steps).disk, s);
  }

  /** What was recovered once stays, in the same place, for the rest of the run. */
  lemma {:induction false} RecoveredOnlyGrows(w: World, steps: seq<Step>, m: nat)
    requires Lawful(w) && LegalRun(w, steps) && m <= |steps|
    ensures LegalRun(w, steps[..m])
    ensures Recovered(w, Run(w, steps[..m]).disk) <= Recovered(w, Run(w, steps).disk)
  {
    if m == |steps| {
      assert steps[..m] == steps;
    } else {
      var before, last := steps[..|steps| - 1], steps[|steps| - 1];
      RecoveredOnlyGrows(w, before, m);
      assert before[..m] == steps[..m];
      var h := Run(w, before);
      var s := RunIsSound(w, before);
      var t: Shape;
      match last {
        case Finish(bundle, id) => t := FinishKeepsSound(w, h, s, bundle, id);
        case Crash(bundle, id, after) => t := CrashKeepsSound(w, h, s, bundle, id, after);
      }
      ScanShaped(w, h.disk, s);
      ScanShaped(w, Run(w, steps).disk, t);
    }
  }

  /** A plain read during a run gives what the next append recovers, or fails; it never fails right after a
      finished append that was well-formed. */
  lemma PlainReadOverRuns(w: World, steps: seq<Step>)
    requires Lawful(w) && LegalRun(w, steps)
    ensures var d := Run(w, steps).disk;
            && ScanFile(w, d.events, false) in {Corrupt, Good(Recovered(w, d), |d.events|, false)}
            && (ScanFile(w, d.events, false).Corrupt? <==> exists log, e, k ::
                 0 < k < |w.encode(e)| && TornAt(w, d, log, e, k))
            && (|steps| > 0 && WellFormedFinish(w, steps[|steps| - 1]) ==> ScanFile(w, d.events, false).Good?)
  {
    var d := Run(w, steps).disk;
    var s := RunIsSound(w, steps);
    ScanShaped(w, d, s);
    PlainRead(w, d, s);
    if ScanFile(w, d.events, false).Corrupt? {
      assert TornAt(w, d, s.log, s.pending, |s.tail|);
    }
    if log, e, k :| 0 < k < |w.encode(e)| && TornAt(w, d, log, e, k) {
      PlainRead(w, d, Shape(log, w.encode(e)[..k], e));
    }
    if |steps| > 0 && WellFormedFinish(w, steps[|steps| - 1]) {
      WholeAfterFinish(w, steps);
    }
  }

  predicate WellFormedFinish(w: World, step: Step) {
    step.Finish? && step.id != "" && step.bundle.digest == w.digest(step.bundle.manifest)
  }

  /** The file is whole lines and then the first `k` bytes of one more event. */
  ghost predicate TornAt(w: World, d: Disk, log: seq<Event>, e: Event, k: nat) {
    k <= |w.encode(e)| && d.events == Lines(w, log) + w.encode(e)[..k]
  }

  lemma WholeAfterFinish(w: World, steps: seq<Step>)
    requires Lawful(w) && LegalRun(w, steps) && |steps| > 0 && WellFormedFinish(w, steps[|steps| - 1])
    ensures ScanFile(w, Run(w, steps).disk.events, false).Good?
  {
    var before, last := steps[..|steps| - 1], steps[|steps| - 1];
    var h := Run(w, before);
    var s := RunIsSound(w, before);
    var e := EventOf(last.bundle, last.id);
    var whole := RepairedSound(w, h, s, e);
    var known := Known(w, s);
    var d := Run(w, steps).disk;
    var log := if d.events == Lines(w, known) then known else known + [e];
    LinesAppend(w, known, e);
    assert d.events == Lines(w, log) + [];
    PlainRead(w, d, Shape(log, [], e));
  }

  /** Exactly one of three answers to a well-formed append, decided by what is on disk: a known id
      with other evidence or an occupied address is refused and changes no record, a known id with
      the same evidence is acknowledged again, and a new id is added at the end. */
  lemma AppendDecides(w: World, steps: seq<Step>, bundle: Bundle, id: string)
    requires Lawful(w) && LegalRun(w, steps) && id != "" && bundle.digest == w.digest(bundle.manifest)
    ensures var h := Run(w, steps);
            var known, e := Recovered(w, h.disk), EventOf(bundle, id);
            var (after, r) := Appended(w, h.disk, bundle, id);
            var reused := exists p :: p in known && p.eventId == id && p != e;
            var occupied := bundle.digest in h.disk.objects && h.disk.objects[bundle.digest] != bundle.manifest;
            && (r == Violation <==> reused || occupied)
            && (r != Violation ==> r == Acknowledged(bundle.digest))
            && Recovered(w, after) == if r == Violation || e in known then known else known + [e]
  {
    var h := Run(w, steps);
    var s := RunIsSound(w, steps);
    ScanShaped(w, h.disk, s);
    var t := FinishKeepsSound(w, h, s, bundle, id);
    ScanShaped(w, Next(w, h, Finish(bundle, id)).disk, t);
    UniqueFind(Known(w, s), id, EventOf(bundle, id));
  }

  lemma UniqueFind(known: seq<Event>, id: string, e: Event)
    requires UniqueIds(known) && e.eventId == id
    ensures Find(known, id).Some? ==> (Find(known, id).value == e <==> e in known)
    ensures Find(known, id).Some? ==>
            (Find(known, id).value != e <==> exists p :: p in known && p.eventId == id && p != e)
  {
  }
}
