/**
 When a reader may report a clean end (reader.go): the chunks it has seen, as events, and the EOF chunks
 among them. Section 4.6 of the MinLZ format specification v1.0 wants one for every identifier.
 */
module EndOfStream {
  import opened Bytes
  import opened Varint
  import opened Stream
  import opened ChunkReader

  datatype Event = Identifier | Data(size: nat) | End(total: Option<nat>) | Other

  function EventOf(kind: Byte, data: seq<Byte>, out: seq<Byte>): (r: Event) {
    if kind == CHUNK_STREAM_ID then Identifier
    else if kind == CHUNK_EOF then
      End(match GetUvarint(data, 0, 0) case None => None case Some(t) => if data == [] then None else Some(t.0))
    else if out != [] then Data(|out|)
    else Other
  }

  /** The chunks that are read before the end or an error. */
  function Events(c: Settings, st: State, input: seq<Byte>): (r: seq<Event>)
    decreases |input|
  {
    match Step(c, st, input)
    case Failed(_) => []
    case More(st', out, rest) =>
      var chunk := input[..|input| - |rest|];
      (if |chunk| < 4 then [] else [EventOf(chunk[0], chunk[4..], out)]) + Events(c, st', rest)
  }

  /** How many events come before the next identifier or EOF chunk. */
  function Gap(t: seq<Event>): (r: nat)
    ensures r <= |t|
    ensures r < |t| ==> t[r].Identifier? || t[r].End?
    ensures forall i :: 0 <= i < r ==> !t[i].Identifier? && !t[i].End?
  {
    if t == [] || t[0].Identifier? || t[0].End? then 0 else 1 + Gap(t[1..])
  }

  function Total(t: seq<Event>): (r: nat) {
    if t == [] then 0 else (if t[0].Data? then t[0].size else 0) + Total(t[1..])
  }

  /** After `pos` bytes: the next of the two, if it is an EOF chunk that gives a size, gives the right one. */
  predicate RightSize(t: seq<Event>, pos: nat) {
    var n := Gap(t);
    n < |t| && t[n].End? && t[n].total.Some? ==> t[n].total.value == pos + Total(t[..n])
  }

  /** One chunk, its event and what it does to the state. */
  lemma OneEvent(c: Settings, st: State, input: seq<Byte>)
    requires Step(c, st, input).More? && !c.ignoreStreamID
    ensures var n := Step(c, st, input);
            var m := |input| - |n.rest|;
            && m >= 4
            && match EventOf(input[0], input[4..m], n.out)
               case Identifier => n.st.wantEOF && n.st.pos == 0 && n.out == []
               case End(total) => !n.st.wantEOF && n.st.pos == st.pos && n.out == [] &&
                 (total.Some? ==> total.value == st.pos)
               case Data(size) => n.st.wantEOF == st.wantEOF && n.st.pos == st.pos + size && |n.out| == size
               case Other => n.st.wantEOF == st.wantEOF && n.st.pos == st.pos && n.out == []
  {
    hide GetUvarint; hide Load24; hide Load32; hide Pow2;
    var len := Load24(input, 1);
    assert input[4..4 + len][..len] == input[4..4 + len];
  }

  lemma EventsOnce(c: Settings, st: State, input: seq<Byte>)
    requires Step(c, st, input).More? && !c.ignoreStreamID
    ensures var n := Step(c, st, input);
            var m := |input| - |n.rest|;
            m >= 4 && Events(c, st, input) == [EventOf(input[0], input[4..m], n.out)] + Events(c, n.st, n.rest)
  {
    hide EventOf;
    OneEvent(c, st, input);
    hide Step;
    var m := |input| - |Step(c, st, input).rest|;
    assert input[..m][4..] == input[4..m];
  }

  lemma Prepend(e: Event, t: seq<Event>)
    ensures Gap([e] + t) == if e.Identifier? || e.End? then 0 else 1 + Gap(t)
    ensures !e.Identifier? && !e.End? ==>
              forall pos: nat :: RightSize(t, pos + if e.Data? then e.size else 0) ==> RightSize([e] + t, pos)
  {
    var u := [e] + t;
    assert u[1..] == t;
    if !e.Identifier? && !e.End? {
      var n := Gap(t);
      assert u[..1 + n][1..] == t[..n];
    }
  }

  /** An identifier is followed by an EOF chunk with the right size, if any, or else by another identifier. */
  ghost predicate Answered(t: seq<Event>, i: nat)
    requires i < |t|
  {
    Gap(t[i + 1..]) < |t| - i - 1 && RightSize(t[i + 1..], 0)
  }

  lemma {:induction false} CleanEnd(c: Settings, st: State, input: seq<Byte>)
    requires !c.ignoreStreamID && All(c, st, input).end == Eof
    ensures var t := Events(c, st, input);
            && (st.wantEOF ==> Gap(t) < |t|)
            && RightSize(t, st.pos)
            && (forall i :: 0 <= i < |t| && t[i].Identifier? ==> Answered(t, i))
            && |All(c, st, input).data| == Total(t)
    decreases |input|
  {
    hide Step; hide EventOf;
    match Step(c, st, input) {
      case Failed(_) => StepEof(c, st, input);
      case More(st', out, rest) =>
        CleanEnd(c, st', rest);
        OneEvent(c, st, input);
        EventsOnce(c, st, input);
        var e, t' := EventOf(input[0], input[4..|input| - |rest|], out), Events(c, st', rest);
        AfterOneEvent(e, t', st.wantEOF, st.pos, st'.wantEOF, st'.pos);
        assert ([e] + t')[1..] == t';
    }
  }

  lemma AfterOneEvent(e: Event, t': seq<Event>, want: bool, pos: nat, want': bool, pos': nat)
    requires match e
             case Identifier => want' && pos' == 0
             case End(total) => total.Some? ==> total.value == pos
             case Data(size) => want' == want && pos' == pos + size
             case Other => want' == want && pos' == pos
    requires want' ==> Gap(t') < |t'|
    requires RightSize(t', pos') && forall i :: 0 <= i < |t'| && t'[i].Identifier? ==> Answered(t', i)
    ensures var t := [e] + t';
            && (want ==> Gap(t) < |t|)
            && RightSize(t, pos)
            && forall i :: 0 <= i < |t| && t[i].Identifier? ==> Answered(t, i)
  {
    var t := [e] + t';
    Prepend(e, t');
    if e.Identifier? || e.End? { assert t[..0] == []; }
    forall i | 0 <= i < |t| && t[i].Identifier?
      ensures Answered(t, i)
    {
      if i == 0 {
        assert t[1..] == t';
      } else {
        assert t[i + 1..] == t'[i..];
        assert Answered(t', i - 1);
      }
    }
  }

  /**
   A clean end means that every identifier was answered, and that the sizes of EOF chunks were those of
   the data; so the last identifier has its EOF chunk, and each of them has one unless another identifier
   came first.
   */
  lemma CleanEndIsClosed(c: Settings, input: seq<Byte>)
    requires !c.ignoreStreamID && All(c, Initial(c), input).end == Eof
    ensures var t := Events(c, Initial(c), input);
            && (forall i :: 0 <= i < |t| && t[i].Identifier? ==> Answered(t, i))
            && (forall i :: 0 <= i < |t| && t[i].Identifier? && (forall j :: i < j < |t| ==> !t[j].Identifier?) ==>
                  t[i + 1..][Gap(t[i + 1..])].End?)
            && |All(c, Initial(c), input).data| == Total(t)
  {
    hide All; hide Events; hide RightSize; hide Total;
    CleanEnd(c, Initial(c), input);
    var t := Events(c, Initial(c), input);
    forall i | 0 <= i < |t| && t[i].Identifier? && (forall j :: i < j < |t| ==> !t[j].Identifier?)
      ensures Answered(t, i) && t[i + 1..][Gap(t[i + 1..])].End?
    {
      assert Answered(t, i);
      assert t[i + 1..][Gap(t[i + 1..])] == t[i + 1 + Gap(t[i + 1..])];
    }
  }
}
