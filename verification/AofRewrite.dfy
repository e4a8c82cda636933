/** Handing the differences over while a child rewrites the append only file: the parent keeps
    what is fed since the fork in a list of blocks and sends it through a pipe; when the child has
    written its snapshot the two agree to stop with a '!' each way, and the parent appends what
    it still holds. */
module AofRewrite {

  // ---------------------------------------------------------------- the protocol

  datatype Phase =
    | Copying                 // writing the snapshot, reading differences now and then
    | WaitingAck              // asked the parent to stop
    | Finishing               // the parent agreed
    | Exited(file: string)    // file complete, exit code 0
    | GaveUp

  /** Parent and child. `fed` is history: everything fed since the fork. `buffer` is what the
      blocks hold, `pipe` what is in the data pipe, `asks` and `acks` the bytes in the two others. */
  datatype Sys = Sys(
    snapshot: string,
    fed: string,
    buffer: string,
    stop: bool,
    pipe: string,
    diff: string,
    asks: nat,
    acks: nat,
    phase: Phase)

  datatype Event =
    | Feed(bytes: string)
    | Send(n: nat)            // the pipe takes n bytes
    | ChildRead(n: nat)
    | Ask
    | Agree(ackSent: bool)
    | GetAck
    | FinalRead(left: nat)    // all but so many bytes; none is left when the read ends at EAGAIN
    | GiveUp

  function Start(snapshot: string): Sys { Sys(snapshot, "", "", false, "", "", 0, 0, Copying) }

  function Apply(s: Sys, ev: Event): Sys {
    match ev
    case Feed(bytes) => s.(fed := s.fed + bytes, buffer := s.buffer + bytes)
    case Send(n) =>
      if s.stop || n > |s.buffer| then s else s.(pipe := s.pipe + s.buffer[..n], buffer := s.buffer[n..])
    case ChildRead(n) =>
      if s.phase != Copying || n > |s.pipe| then s else s.(diff := s.diff + s.pipe[..n], pipe := s.pipe[n..])
    case Ask => if s.phase != Copying then s else s.(asks := s.asks + 1, phase := WaitingAck)
    case Agree(ackSent) =>
      if s.asks == 0 then s
      else s.(asks := s.asks - 1, stop := true, acks := if ackSent then s.acks + 1 else s.acks)
    case GetAck => if s.phase != WaitingAck || s.acks == 0 then s else s.(acks := s.acks - 1, phase := Finishing)
    case FinalRead(left) =>
      if s.phase != Finishing || left > |s.pipe| then s
      else
        var n := |s.pipe| - left;
        var diff := s.diff + s.pipe[..n];
        s.(diff := diff, pipe := s.pipe[n..], phase := Exited(s.snapshot + diff))
    case GiveUp => if s.phase.Exited? then s else s.(phase := GaveUp)
  }

  /** The file the parent installs after the child's success. */
  function Installed(s: Sys): string
    requires s.phase.Exited?
  {
    s.phase.file + s.buffer
  }

  /** Every byte fed is in exactly one place, in order, and nothing enters the pipe once the child
      may believe that the parent stopped. */
  ghost predicate Inv(s: Sys) {
    && s.fed == s.diff + s.pipe + s.buffer
    && (s.acks > 0 || s.phase == Finishing || s.phase.Exited? ==> s.stop)
    && (s.phase.Exited? ==> s.phase.file == s.snapshot + s.diff)
  }

  lemma SplitAt(a: string, b: string, n: nat, c: string)
    requires n <= |b|
    ensures a + b[..n] + b[n..] + c == a + b + c
  {
    assert b == b[..n] + b[n..];
  }

  lemma ApplyInv(s: Sys, ev: Event)
    requires Inv(s)
    ensures Inv(Apply(s, ev)) && Apply(s, ev).snapshot == s.snapshot
  {
    match ev
    case Feed(bytes) => assert s.diff + s.pipe + (s.buffer + bytes) == s.diff + s.pipe + s.buffer + bytes;
    case Send(n) =>
      if n <= |s.buffer| {
        assert s.diff + (s.pipe + s.buffer[..n]) + s.buffer[n..] == s.diff + s.pipe + s.buffer;
      }
    case ChildRead(n) =>
      if n <= |s.pipe| {
        SplitAt(s.diff, s.pipe, n, s.buffer);
      }
    case FinalRead(left) =>
      if left <= |s.pipe| {
        SplitAt(s.diff, s.pipe, |s.pipe| - left, s.buffer);
      }
    case _ =>
  }

  /** Once the child has exited nothing moves through the pipe any more. */
  lemma ExitedStays(s: Sys, ev: Event)
    requires Inv(s) && s.phase.Exited?
    ensures Apply(s, ev).phase == s.phase && Apply(s, ev).pipe == s.pipe
  {}

  function Run(s: Sys, evs: seq<Event>): Sys
    decreases |evs|
  {
    if evs == [] then s else Run(Apply(s, evs[0]), evs[1..])
  }

  lemma {:induction false} RunInv(s: Sys, evs: seq<Event>)
    requires Inv(s)
    ensures Inv(Run(s, evs)) && Run(s, evs).snapshot == s.snapshot
    decreases |evs|
  {
    if evs != [] {
      ApplyInv(s, evs[0]);
      RunInv(Apply(s, evs[0]), evs[1..]);
    }
  }

  /** What is installed is the snapshot and everything fed if, and only if, the child read all of the
      pipe. */
  lemma InstalledIff(s: Sys)
    requires Inv(s) && s.phase.Exited?
    ensures Installed(s) == s.snapshot + s.fed <==> s.pipe == ""
  {
    if s.pipe == "" {
      assert s.diff + s.pipe + s.buffer == s.diff + s.buffer;
      assert s.snapshot + s.diff + s.buffer == s.snapshot + (s.diff + s.buffer);
    } else {
      assert |Installed(s)| < |s.snapshot + s.fed|;
    }
  }

  /** Over every interleaving: the installed file is the snapshot followed by exactly the bytes fed
      since the fork if, and only if, the child's last read emptied the pipe. */
  lemma HandoffExact(snapshot: string, evs: seq<Event>)
    requires Run(Start(snapshot), evs).phase.Exited?
    ensures var s := Run(Start(snapshot), evs);
      Installed(s) == snapshot + s.fed <==> s.pipe == ""
  {
    RunInv(Start(snapshot), evs);
    InstalledIff(Run(Start(snapshot), evs));
  }

  ghost predicate Drains(evs: seq<Event>) {
    forall i :: 0 <= i < |evs| && evs[i].FinalRead? ==> evs[i].left == 0
  }

  lemma {:induction false} DrainedStays(s: Sys, evs: seq<Event>)
    requires Inv(s) && Drains(evs) && (s.phase.Exited? ==> s.pipe == "")
    ensures Run(s, evs).phase.Exited? ==> Run(s, evs).pipe == ""
    decreases |evs|
  {
    if evs != [] {
      var s' := Apply(s, evs[0]);
      ApplyInv(s, evs[0]);
      if s.phase.Exited? {
        ExitedStays(s, evs[0]);
      }
      DrainedStays(s', evs[1..]);
    }
  }

  /** When reads end only at an empty pipe, no byte is lost or repeated, whatever the order of
      feeds, partial writes, reads and the exchange of the stop bytes. */
  lemma Handoff(snapshot: string, evs: seq<Event>)
    requires Run(Start(snapshot), evs).phase.Exited? && Drains(evs)
    ensures Installed(Run(Start(snapshot), evs)) == snapshot + Run(Start(snapshot), evs).fed
  {
    DrainedStays(Start(snapshot), evs);
    HandoffExact(snapshot, evs);
  }

  /** How many bytes each step moves; with the invariant, which ones. */
  lemma StepMoves(s: Sys, ev: Event)
    ensures var s' := Apply(s, ev);
      match ev
      case Feed(bytes) => s'.fed == s.fed + bytes && |s'.buffer| == |s.buffer| + |bytes| && s'.pipe == s.pipe && s'.diff == s.diff
      case Send(n) =>
        if !s.stop && n <= |s.buffer|
        then |s'.pipe| == |s.pipe| + n && |s'.buffer| == |s.buffer| - n && s'.diff == s.diff && s'.fed == s.fed
        else s' == s
      case ChildRead(n) =>
        if s.phase == Copying && n <= |s.pipe|
        then |s'.diff| == |s.diff| + n && |s'.pipe| == |s.pipe| - n && s'.buffer == s.buffer && s'.fed == s.fed
        else s' == s
      case FinalRead(left) =>
        if s.phase == Finishing && left <= |s.pipe|
        then s'.phase.Exited? && |s'.pipe| == left && s'.buffer == s.buffer && s'.fed == s.fed
        else s' == s
      case _ => s'.buffer == s.buffer && s'.pipe == s.pipe && s'.diff == s.diff && s'.fed == s.fed
  {}

  /** Whenever the child is still copying, the exchange of the stop bytes and one last read finish the
      rewrite, and the file then holds the snapshot and everything fed so far. */
  lemma CanFinish(snapshot: string, evs: seq<Event>) returns (more: seq<Event>)
    requires Run(Start(snapshot), evs).phase == Copying
    ensures var s, s' := Run(Start(snapshot), evs), Run(Run(Start(snapshot), evs), more);
      && Drains(more) && s'.phase.Exited? && s'.fed == s.fed && Installed(s') == snapshot + s.fed
  {
    var s := Run(Start(snapshot), evs);
    RunInv(Start(snapshot), evs);
    more := [Ask, Agree(true), GetAck, FinalRead(0)];
    var s1 := Apply(s, Ask);
    var s2 := Apply(s1, Agree(true));
    var s3 := Apply(s2, GetAck);
    assert more[1..] == [Agree(true), GetAck, FinalRead(0)] && more[1..][1..] == [GetAck, FinalRead(0)];
    assert Run(s, more) == Run(s1, more[1..]) == Run(s2, more[1..][1..]) == Run(s3, [FinalRead(0)]) == Apply(s3, FinalRead(0));
    RunInv(s, more);
    InstalledIff(Run(s, more));
  }

  function Sum(ns: seq<nat>, n: nat): nat
    requires n <= |ns|
  {
    if n == 0 then 0 else Sum(ns, n - 1) + ns[n - 1]
  }

  /** aofReadDiffFromParent: reads until a read gives nothing; `gives` is what each read could
      give, besides the room in its buffer and what the pipe holds. */
  method ReadDiffFromParent(diff: string, pipe: string, gives: seq<nat>)
    returns (diff': string, left: string, total: nat, ghost rounds: nat)
    ensures diff' + left == diff + pipe && |diff'| == |diff| + total
    ensures rounds <= |gives| && rounds <= total <= Sum(gives, rounds) && total <= 65536 * rounds
    ensures left != "" ==> rounds == |gives| || gives[rounds] == 0
    ensures |gives| >= |pipe| && (forall i :: 0 <= i < |gives| ==> gives[i] > 0) ==> left == ""
  {
    diff', left, total, rounds := diff, pipe, 0, 0;
    var i := 0;
    while left != "" && i < |gives| && gives[i] > 0
      invariant 0 <= i == rounds <= |gives| && i + |left| <= |pipe|
      invariant i <= total <= Sum(gives, i) && total <= 65536 * i
      invariant diff' + left == diff + pipe && |diff'| == |diff| + total
    {
      var room := if gives[i] < 65536 then gives[i] else 65536;
      var n := if room < |left| then room else |left|;
      assert diff' + left == diff' + left[..n] + left[n..];
      diff', left, total := diff' + left[..n], left[n..], total + n;
      i, rounds := i + 1, rounds + 1;
    }
  }

  // ---------------------------------------------------------------- the blocks

  const AOF_RW_BUF_BLOCK_SIZE: nat := 10 * 1024 * 1024

  /** The first `used` bytes of a block's buffer, and how many more it can take. */
  datatype Block = Block(data: string, free: nat)

  ghost predicate BlockOk(b: Block) { |b.data| + b.free == AOF_RW_BUF_BLOCK_SIZE }

  function Bytes(blocks: seq<Block>): string { if blocks == [] then "" else blocks[0].data + Bytes(blocks[1..]) }

  lemma {:induction false} BytesSum(a: seq<Block>, b: seq<Block>)
    ensures Bytes(a + b) == Bytes(a) + Bytes(b)
  {
    if a == [] {
      assert a + b == b;
    } else {
      assert (a + b)[1..] == a[1..] + b;
      BytesSum(a[1..], b);
    }
  }

  lemma BytesLast(blocks: seq<Block>, b: Block)
    ensures Bytes(blocks + [b]) == Bytes(blocks) + b.data
  {
    BytesSum(blocks, [b]);
    assert [b][1..] == [] && Bytes([b]) == b.data + "";
  }

  ghost predicate Written(b: Block, i: nat, takes: seq<nat>) { b.data == "" || (i < |takes| && |b.data| <= takes[i]) }

  lemma SentMore(sent: string, part: string, rest: string, before: string)
    requires part + rest == before
    ensures sent + part + rest == sent + before && |part| + |rest| == |before|
  {
    assert sent + part + rest == sent + (part + rest);
  }

  class RewriteBuffer {
    var blocks: seq<Block>
    var stop: bool

    constructor ()
      ensures Valid() && Bytes(blocks) == "" && !stop
    {
      blocks, stop := [], false;
    }

    ghost predicate Valid()
      reads this
    {
      forall i :: 0 <= i < |blocks| ==> BlockOk(blocks[i])
    }

    /** How many bytes the last block can still take. */
    ghost function Room(): nat
      reads this
    {
      if blocks == [] then 0 else blocks[|blocks| - 1].free
    }

    /** As much of s as the last block can take. */
    method FillLast(s: string) returns (n: nat)
      requires Valid() && blocks != [] && s != ""
      modifies this`blocks
      ensures n <= |s| && Valid() && Bytes(blocks) == old(Bytes(blocks)) + s[..n]
      ensures n == (if old(Room()) < |s| then old(Room()) else |s|)
      ensures Room() == old(Room()) - n && |blocks| == old(|blocks|)
    {
      var front, last := blocks[..|blocks| - 1], blocks[|blocks| - 1];
      assert blocks == front + [last];
      n := if last.free < |s| then last.free else |s|;
      var filled := Block(last.data + s[..n], last.free - n);
      BytesLast(front, last);
      BytesLast(front, filled);
      assert Bytes(front) + (last.data + s[..n]) == Bytes(front) + last.data + s[..n];
      blocks := front + [filled];
    }

    method AddBlock()
      requires Valid()
      modifies this`blocks
      ensures Valid() && Bytes(blocks) == old(Bytes(blocks))
      ensures Room() == AOF_RW_BUF_BLOCK_SIZE && |blocks| == old(|blocks|) + 1
    {
      BytesLast(blocks, Block("", AOF_RW_BUF_BLOCK_SIZE));
      assert Bytes(blocks) + "" == Bytes(blocks);
      blocks := blocks + [Block("", AOF_RW_BUF_BLOCK_SIZE)];
    }

    /** aofRewriteBufferAppend: fills the last block and adds new ones as needed. */
    method Append(s: string)
      requires Valid()
      modifies this`blocks
      ensures Valid() && Bytes(blocks) == old(Bytes(blocks)) + s
      ensures |blocks| >= old(|blocks|)
      ensures Room() == old(Room()) + (|blocks| - old(|blocks|)) * AOF_RW_BUF_BLOCK_SIZE - |s|
      ensures |blocks| > old(|blocks|) ==> Room() < AOF_RW_BUF_BLOCK_SIZE
    {
      var left := s;
      while left != ""
        invariant Valid() && Bytes(blocks) + left == old(Bytes(blocks)) + s
        invariant |blocks| >= old(|blocks|)
        invariant Room() + |s| == old(Room()) + (|blocks| - old(|blocks|)) * AOF_RW_BUF_BLOCK_SIZE + |left|
        invariant |blocks| > old(|blocks|) && left == "" ==> Room() < AOF_RW_BUF_BLOCK_SIZE
        decreases |left|, if Room() == 0 then 1 else 0
      {
        left := AppendSome(left);
      }
      assert Bytes(blocks) + "" == Bytes(blocks);
    }

    /** One round: as much as the last block takes, and a new block if that was not all. */
    method AppendSome(s: string) returns (left: string)
      requires Valid() && s != ""
      modifies this`blocks
      ensures Valid() && Bytes(blocks) + left == old(Bytes(blocks)) + s
      ensures |left| == |s| - (if old(Room()) < |s| then old(Room()) else |s|)
      ensures left == "" ==> |blocks| == old(|blocks|) && Room() == old(Room()) - |s| < AOF_RW_BUF_BLOCK_SIZE
      ensures left != "" ==> |blocks| == old(|blocks|) + 1 && Room() == AOF_RW_BUF_BLOCK_SIZE
    {
      left := s;
      ghost var before := Bytes(blocks);
      if blocks != [] {
        var n := FillLast(s);
        assert before + s == before + s[..n] + s[n..];
        left := s[n..];
      }
      if left != "" {
        AddBlock();
      }
    }

    /** One write of at most n bytes of the first block, which goes once it is empty. */
    method SendFirst(n: nat) returns (part: string)
      requires Valid() && blocks != [] && |blocks[0].data| > 0 && n > 0
      modifies this`blocks
      ensures Valid() && |part| > 0 && part + Bytes(blocks) == old(Bytes(blocks)) && |blocks| <= old(|blocks|)
      ensures |part| == if n < old(|blocks[0].data|) then n else old(|blocks[0].data|)
    {
      var b, rest := blocks[0], blocks[1..];
      var k := if n < |b.data| then n else |b.data|;
      part := b.data[..k];
      assert b.data + Bytes(rest) == b.data[..k] + (b.data[k..] + Bytes(rest));
      if k < |b.data| {
        blocks := [Block(b.data[k..], b.free + k)] + rest;
        assert blocks[1..] == rest;
      } else {
        assert b.data[k..] + Bytes(rest) == Bytes(rest);
        blocks := rest;
      }
    }

    method DropEmpty()
      requires Valid() && blocks != [] && blocks[0].data == ""
      modifies this`blocks
      ensures Valid() && Bytes(blocks) == old(Bytes(blocks)) && |blocks| < old(|blocks|)
    {
      assert "" + Bytes(blocks[1..]) == Bytes(blocks[1..]);
      blocks := blocks[1..];
    }

    /** aofChildWriteDiffData: writes blocks until the pipe takes no more; `takes` is how much it
        takes at each call. What was written is the front of what was held. */
    method ChildWriteDiffData(takes: seq<nat>) returns (sent: string, ghost calls: nat)
      requires Valid()
      modifies this`blocks
      ensures Valid() && sent + Bytes(blocks) == old(Bytes(blocks))
      ensures stop ==> sent == ""
      ensures calls <= |takes| && calls <= |sent| <= Sum(takes, calls)
      ensures !stop && Bytes(blocks) != "" ==> calls == |takes| || takes[calls] == 0
      ensures !stop && |takes| >= old(|Bytes(blocks)|) && (forall i :: 0 <= i < |takes| ==> takes[i] > 0)
              ==> sent == old(Bytes(blocks))
    {
      sent, calls := "", 0;
      var i := 0;
      while !stop && blocks != []
        invariant Valid() && i == calls <= |takes| && sent + Bytes(blocks) == old(Bytes(blocks))
        invariant stop ==> sent == ""
        invariant i <= |sent| <= Sum(takes, i)
        decreases |blocks|, |Bytes(blocks)|
      {
        if |blocks[0].data| == 0 {
          DropEmpty();
        } else if i == |takes| || takes[i] == 0 {
          return;
        } else {
          ghost var before := Bytes(blocks);
          var part := SendFirst(takes[i]);
          SentMore(sent, part, Bytes(blocks), before);
          sent := sent + part;
          i, calls := i + 1, calls + 1;
        }
      }
    }

    /** aofRewriteBufferWrite: all blocks in order, or failure at the first short write; `takes` is how
        much the file takes of each block. */
    method Write(file: string, takes: seq<nat>) returns (r: string, ok: bool)
      requires Valid()
      ensures file <= r <= file + Bytes(blocks)
      ensures ok ==> r == file + Bytes(blocks)
      ensures ok <==> forall i :: 0 <= i < |blocks| ==> Written(blocks[i], i, takes)
    {
      r := file;
      var i := 0;
      assert blocks[0..] == blocks;
      while i < |blocks|
        invariant 0 <= i <= |blocks| && r + Bytes(blocks[i..]) == file + Bytes(blocks) && file <= r
        invariant forall k :: 0 <= k < i ==> Written(blocks[k], k, takes)
      {
        assert blocks[i..][1..] == blocks[i + 1..];
        var b := blocks[i];
        if |b.data| > 0 {
          if i >= |takes| || takes[i] < |b.data| {
            assert !Written(blocks[i], i, takes);
            return r, false;
          }
          assert r + (b.data + Bytes(blocks[i + 1..])) == (r + b.data) + Bytes(blocks[i + 1..]);
          r := r + b.data;
        } else {
          assert "" + Bytes(blocks[i + 1..]) == Bytes(blocks[i + 1..]);
        }
        i := i + 1;
      }
      return r, true;
    }
  }
}
