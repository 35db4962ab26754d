/** Many logical readers over one seekable stream that remembers where it is. */
module SharedSource {
  import opened Options
  import opened ByteStream

  /** What a call on the stream comes back with; a panic unwinds through the caller. */
  datatype Moved = At(position: nat) | MoveFailed | MovePanicked

  datatype Outcome = Ok(bytes: Bytes) | Err | Panicked

  /** The opened stream. Unless it is reliable any call may fail or panic, and leave the stream anywhere. */
  class Stream {
    const content: Bytes
    const reliable: bool
    var offset: nat

    constructor (content: Bytes, reliable: bool)
      ensures this.content == content && this.reliable == reliable
    {
      this.content, this.reliable, offset := content, reliable, 0;
    }

    method Wander()
      modifies this
    {
      var elsewhere: int := *;
      if elsewhere >= 0 { offset := elsewhere; }
    }

    /** A seek may also succeed and report another position, where it then is. */
    method Seek(target: nat) returns (r: Moved)
      modifies this
      ensures r.At? ==> offset == r.position
      ensures reliable ==> r == At(target)
    {
      var fault: int := *;
      if fault == 0 || reliable {
        offset := target;
        return At(target);
      }
      Wander();
      r := if fault == 1 then MoveFailed else if fault == 2 then MovePanicked else At(offset);
    }

    /** At most `limit` bytes from where the stream is; none only at the end. */
    method Read(limit: nat) returns (r: Outcome)
      requires limit > 0
      modifies this
      ensures r.Ok? ==>
                && offset == old(offset) + |r.bytes| && |r.bytes| <= limit
                && (old(offset) <= |content| ==> offset <= |content| && r.bytes == content[old(offset)..offset])
                && (r.bytes == [] <==> old(offset) >= |content|)
      ensures reliable ==> r.Ok?
    {
      var fault, wanted: int := *, *;
      if !reliable && (fault == 1 || fault == 2) {
        Wander();
        return if fault == 1 then Err else Panicked;
      }
      if offset >= |content| { return Ok([]); }
      if wanted < 1 { wanted := 1; }
      if wanted > limit { wanted := limit; }
      if wanted > |content| - offset { wanted := |content| - offset; }
      r := Ok(content[offset..offset + wanted]);
      offset := offset + wanted;
    }
  }

  /** `RestartableSourceInner` and the mutex around it. */
  class Source {
    const stream: Stream
    var position: Option<nat>
    var poisoned: bool

    constructor (stream: Stream)
      requires |stream.content| < U64
      ensures this.stream == stream && Valid() && !poisoned && position.None?
    {
      this.stream, position, poisoned := stream, None, false;
    }

    /** A remembered position is where the stream is, unless a panic has poisoned the mutex. */
    ghost predicate Valid()
      reads this, stream
    {
      |stream.content| < U64 && (!poisoned && position.Some? ==> position.value == stream.offset)
    }

    /** `lock_restartable_source`: after a panic nothing that was remembered is trusted. */
    method Lock()
      requires Valid()
      modifies this`position
      ensures Valid() && (position.Some? ==> position.value == stream.offset)
    {
      if poisoned { position := None; }
    }

    /** `reader` */
    method NewReader() returns (r: Reader)
      ensures fresh(r) && r.source == this && r.position == 0 && r.delivered == [] && r.Valid()
    {
      r := new Reader(this);
    }
  }

  class Reader {
    const source: Source
    var position: nat
    /** Everything this reader has returned so far. */
    ghost var delivered: Bytes

    constructor (source: Source)
      ensures this.source == source && position == 0 && delivered == [] && Valid()
    {
      this.source, position, delivered := source, 0, [];
    }

    /** What was returned is the beginning of the content, up to the cursor. */
    ghost predicate Valid()
      reads this
    {
      position <= |source.stream.content| && delivered == source.stream.content[..position]
    }

    /** One read. It returns what a private stream would return next; anything else leaves the
        cursor where it was. On a reliable stream it always succeeds, whatever happened before. */
    method Read(limit: nat) returns (r: Outcome)
      requires Valid() && source.Valid()
      modifies this, source, source.stream
      ensures Valid() && source.Valid()
      ensures r.Ok? ==>
                && |r.bytes| <= limit && delivered == old(delivered) + r.bytes
                && (r.bytes == [] <==> limit == 0 || old(position) == |source.stream.content|)
      ensures !r.Ok? ==> position == old(position) && delivered == old(delivered)
      ensures limit == 0 || source.stream.reliable ==> r.Ok?
      ensures source.poisoned == (old(source.poisoned) || r.Panicked?)
    {
      if limit == 0 { return Ok([]); }
      source.Lock();
      if source.position != Some(position) {
        var moved := source.stream.Seek(position);
        if moved.MovePanicked? {
          source.poisoned := true;
          return Panicked;
        }
        if moved.MoveFailed? || moved.position != position {
          source.position := None;
          return Err;
        }
        source.position := Some(moved.position);
      }
      r := source.stream.Read(limit);
      match r {
        case Panicked => source.poisoned := true;
        case Err => source.position := None;
        case Ok(bytes) =>
          var next := position + |bytes|;
          assert next < U64; // so `checked_add` never overflows
          delivered := delivered + bytes;
          position := next;
          source.position := Some(position);
      }
    }
  }

  // ----- many readers -----

  predicate Distinct(readers: seq<Reader>) { forall i, j | 0 <= i < j < |readers| :: readers[i] != readers[j] }

  ghost predicate AllValid(source: Source, readers: seq<Reader>)
    reads source, source.stream, readers
  {
    source.Valid() && forall i | 0 <= i < |readers| :: readers[i].source == source && readers[i].Valid()
  }

  /** What the users of one source do: open one more reader, or read with one of those opened. */
  datatype Use = Open | Get(reader: nat, limit: nat)

  function Opened(schedule: seq<Use>): nat {
    if schedule == [] then 0 else Opened(schedule[..|schedule| - 1]) + if schedule[|schedule| - 1].Open? then 1 else 0
  }

  /** How many reads of at least one byte a reader makes. */
  function Gets(schedule: seq<Use>, reader: nat): nat {
    if schedule == [] then 0
    else
      var last := schedule[|schedule| - 1];
      Gets(schedule[..|schedule| - 1], reader) + if last.Get? && last.reader == reader && last.limit > 0 then 1 else 0
  }

  lemma {:induction false} NoGetsYet(readers: nat, schedule: seq<Use>, reader: nat)
    requires Runnable(readers, schedule) && reader >= readers + Opened(schedule)
    ensures Gets(schedule, reader) == 0
  {
    if schedule != [] {
      var init := schedule[..|schedule| - 1];
      assert forall k | 0 <= k < |init| :: init[k] == schedule[k] && init[..k] == schedule[..k];
      assert schedule[|schedule| - 1].Get? ==> schedule[|schedule| - 1].reader < readers + Opened(init);
      NoGetsYet(readers, init, reader);
    }
  }

  /** A reader is not used before it is opened. */
  lemma NotUsedYet(readers: nat, schedule: seq<Use>, k: nat)
    requires Runnable(readers, schedule) && k < |schedule|
    ensures Gets(schedule[..k], readers + Opened(schedule[..k])) == 0
  {
    assert forall l | 0 <= l < k :: schedule[..k][l] == schedule[l] && schedule[..k][..l] == schedule[..l];
    NoGetsYet(readers, schedule[..k], readers + Opened(schedule[..k]));
  }

  lemma NothingUsed()
    ensures Opened([]) == 0 && forall i :: Gets([], i) == 0
  {
  }

  lemma OneMoreUse(schedule: seq<Use>, k: nat)
    requires k < |schedule|
    ensures Opened(schedule[..k + 1]) == Opened(schedule[..k]) + if schedule[k].Open? then 1 else 0
    ensures forall i ::
              Gets(schedule[..k + 1], i)
              == Gets(schedule[..k], i)
                 + if schedule[k].Get? && schedule[k].reader == i && schedule[k].limit > 0 then 1 else 0
  {
    assert schedule[..k + 1][..k] == schedule[..k];
  }

  /** The readers named in the schedule are open by then. */
  predicate Runnable(readers: nat, schedule: seq<Use>) {
    forall k | 0 <= k < |schedule| && schedule[k].Get? :: schedule[k].reader < readers + Opened(schedule[..k])
  }

  /** One read with one of many readers leaves the others as they are. */
  method ReadWith(source: Source, readers: seq<Reader>, i: nat, limit: nat)
    requires AllValid(source, readers) && Distinct(readers) && i < |readers|
    modifies source, source.stream, readers[i]
    ensures AllValid(source, readers)
    ensures forall j | 0 <= j < |readers| :: old(readers[j].delivered) <= readers[j].delivered
    ensures source.stream.reliable && limit > 0 ==>
              |readers[i].delivered| > |old(readers[i].delivered)| || readers[i].delivered == source.stream.content
  {
    assert readers[i].Valid();
    var _ := readers[i].Read(limit);
    forall j | 0 <= j < |readers| ensures old(readers[j].delivered) <= readers[j].delivered && readers[j].Valid() {
      if j != i { assert readers[j] != readers[i]; }
    }
  }

  /** Any interleaving of opening and reading: each reader has returned a beginning of the content, and
      has only ever appended to it. On a reliable stream each read gets further until all is returned. */
  method Interleave(source: Source, readers: seq<Reader>, schedule: seq<Use>) returns (all: seq<Reader>)
    requires AllValid(source, readers) && Distinct(readers) && Runnable(|readers|, schedule)
    modifies source, source.stream, readers
    ensures AllValid(source, all) && Distinct(all) && readers <= all && |all| == |readers| + Opened(schedule)
    ensures forall i | |readers| <= i < |all| :: fresh(all[i])
    ensures forall i | 0 <= i < |readers| :: old(readers[i].delivered) <= readers[i].delivered
    ensures forall i | 0 <= i < |all| :: all[i].delivered <= source.stream.content
    ensures source.stream.reliable ==> forall i | 0 <= i < |all| ::
              |all[i].delivered| >= Gets(schedule, i) || all[i].delivered == source.stream.content
  {
    hide Opened, Gets;
    var k := 0;
    all := readers;
    NothingUsed();
    while k < |schedule|
      invariant 0 <= k <= |schedule| && AllValid(source, all) && Distinct(all)
      invariant readers <= all && |all| == |readers| + Opened(schedule[..k])
      invariant forall i | |readers| <= i < |all| :: fresh(all[i])
      invariant forall i | 0 <= i < |readers| :: old(readers[i].delivered) <= readers[i].delivered
      invariant source.stream.reliable ==> forall i | 0 <= i < |all| ::
                  |all[i].delivered| >= Gets(schedule[..k], i) || all[i].delivered == source.stream.content
    {
      OneMoreUse(schedule, k);
      if schedule[k].Open? {
        NotUsedYet(|readers|, schedule, k);
        var r := source.NewReader();
        all := all + [r];
      } else {
        ReadWith(source, all, schedule[k].reader, schedule[k].limit);
      }
      k := k + 1;
    }
    assert schedule[..k] == schedule;
  }
}
