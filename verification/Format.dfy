/**
 The meaning of a block body: sections 2.1 to 2.5.2 of the MinLZ format specification v1.0.

 A body is a sequence of operations. `ParseOp` reads one operation header, `Step` carries it
 out on a decoder state, and `Run` does so until the body is used up. Every decoder and every
 encoder of the project is proved against these three functions.
 */
module Format {
  import opened Bytes

  /** `Literals` and `Copy` are followed in the body by `count` and `lits` literal bytes. */
  datatype Op =
    | Literals(count: nat)
    | Repeat(length: nat)
    | Copy(lits: nat, offset: nat, length: nat)

  datatype Parsed = Bad | Parsed(op: Op, size: nat)

  /** What a decoder carries between operations: the output so far and the repeat offset. */
  datatype State = State(out: seq<Byte>, offset: nat)

  const INITIAL: State := State([], 1)

  datatype Stepped = Fail | Next(pos: nat, st: State)

  /** Section 2.1: length of a literal run or repeat, with the size of the header. */
  function ParseLength(b: seq<Byte>, s: nat): (r: Option<(nat, nat)>)
    requires s < |b|
  {
    var x := Load8(b, s) / 8;
    if x < 29 then Some((x + 1, 1))
    else if x == 29 then (if s + 2 <= |b| then Some((Load8(b, s + 1) + 30, 2)) else None)
    else if x == 30 then (if s + 3 <= |b| then Some((Load16(b, s + 1) + 30, 3)) else None)
    else (if s + 4 <= |b| then Some((Load24(b, s + 1) + 30, 4)) else None)
  }

  /** Sections 2.4 and 2.5.2: a six bit length field whose extra bytes start at `e`. */
  function ParseCopyLength(b: seq<Byte>, field: nat, e: nat): (r: Option<(nat, nat)>)
  {
    if field <= 60 then Some((field + 4, 0))
    else if field == 61 then (if e + 1 <= |b| then Some((Load8(b, e) + 64, 1)) else None)
    else if field == 62 then (if e + 2 <= |b| then Some((Load16(b, e) + 64, 2)) else None)
    else (if e + 3 <= |b| then Some((Load24(b, e) + 64, 3)) else None)
  }

  /** Section 2.3. */
  function ParseCopy1(b: seq<Byte>, s: nat): (r: Parsed)
    requires s < |b|
  {
    if s + 2 > |b| then Bad
    else
      var offset := Load16(b, s) / 64 + 1;
      var field := Load8(b, s) / 4 % 16;
      if field < 15 then Parsed(Copy(0, offset, field + 4), 2)
      else if s + 3 > |b| then Bad
      else Parsed(Copy(0, offset, Load8(b, s + 2) + 18), 3)
  }

  /** Section 2.4. */
  function ParseCopy2(b: seq<Byte>, s: nat): (r: Parsed)
    requires s < |b|
  {
    if s + 3 > |b| then Bad
    else
      match ParseCopyLength(b, Load8(b, s) / 4, s + 3)
      case None => Bad
      case Some(l) => Parsed(Copy(0, Load16(b, s + 1) + 64, l.0), 3 + l.1)
  }

  /** Section 2.5.1. */
  function ParseFused2(b: seq<Byte>, s: nat): (r: Parsed)
    requires s < |b|
  {
    if s + 3 > |b| then Bad
    else Parsed(Copy(Load8(b, s) / 8 % 4 + 1, Load16(b, s + 1) + 64, Load8(b, s) / 32 + 4), 3)
  }

  /** Section 2.5.2. */
  function ParseCopy3(b: seq<Byte>, s: nat): (r: Parsed)
    requires s < |b|
  {
    if s + 4 > |b| then Bad
    else
      var v := Load32(b, s);
      match ParseCopyLength(b, v / 32 % 64, s + 4)
      case None => Bad
      case Some(l) => Parsed(Copy(v / 8 % 4, v / 2048 + 65536, l.0), 4 + l.1)
  }

  function ParseOp(b: seq<Byte>, s: nat): (r: Parsed)
    requires s < |b|
  {
    var tag := Load8(b, s) % 4;
    if tag == 0 then
      match ParseLength(b, s)
      case None => Bad
      case Some(l) => Parsed(if Load8(b, s) / 4 % 2 == 1 then Repeat(l.0) else Literals(l.0), l.1)
    else if tag == 1 then ParseCopy1(b, s)
    else if tag == 2 then ParseCopy2(b, s)
    else if Load8(b, s) / 4 % 2 == 0 then ParseFused2(b, s)
    else ParseCopy3(b, s)
  }

  /** Tag 0 stands for a literal run or a repeat, told apart by bit 2. */
  lemma ParseOpLiteral(b: seq<Byte>, s: nat)
    requires s < |b| && Load8(b, s) % 4 == 0
    ensures ParseOp(b, s) ==
      match ParseLength(b, s)
      case None => Bad
      case Some(l) => Parsed(if Load8(b, s) / 4 % 2 == 1 then Repeat(l.0) else Literals(l.0), l.1)
  {
  }

  lemma ParseOpBounds(b: seq<Byte>, s: nat)
    requires s < |b| && ParseOp(b, s).Parsed?
    ensures 1 <= ParseOp(b, s).size <= 7 && s + ParseOp(b, s).size <= |b|
    ensures ParseOp(b, s).op.Copy? ==> ParseOp(b, s).op.offset >= 1 && ParseOp(b, s).op.length >= 4
    ensures ParseOp(b, s).op.Copy? && ParseOp(b, s).op.lits > 0 ==> ParseOp(b, s).op.offset >= 64
    ensures ParseOp(b, s).op.Copy? ==> ParseOp(b, s).op.lits <= 4
  {
  }

  /** Section 2.2: `length` bytes read `offset` back, one at a time, so the ranges may overlap. */
  function CopyBack(out: seq<Byte>, offset: nat, length: nat): (r: seq<Byte>)
    requires 1 <= offset <= |out|
    decreases length
  {
    if length == 0 then out
    else CopyBack(out + [out[|out| - offset]], offset, length - 1)
  }

  /** A copy is the only sequence that keeps what was there and then repeats at that distance. */
  lemma {:induction false} CopyBackUnique(out: seq<Byte>, offset: nat, length: nat, r: seq<Byte>)
    requires 1 <= offset <= |out|
    requires |r| == |out| + length && r[..|out|] == out
    requires forall i :: |out| <= i < |r| ==> r[i] == r[i - offset]
    ensures r == CopyBack(out, offset, length)
    decreases length
  {
    if length == 0 {
      assert r == r[..|out|];
    } else {
      var out' := out + [out[|out| - offset]];
      assert r[|out| - offset] == r[..|out|][|out| - offset];
      assert r[..|out'|] == out';
      CopyBackUnique(out', offset, length - 1, r);
    }
  }

  lemma {:induction false} CopyBackShape(out: seq<Byte>, offset: nat, length: nat)
    requires 1 <= offset <= |out|
    ensures |CopyBack(out, offset, length)| == |out| + length
    ensures CopyBack(out, offset, length)[..|out|] == out
    ensures forall i :: |out| <= i < |out| + length ==>
              CopyBack(out, offset, length)[i] == CopyBack(out, offset, length)[i - offset]
    decreases length
  {
    var r := CopyBack(out, offset, length);
    if length > 0 {
      var out' := out + [out[|out| - offset]];
      CopyBackShape(out', offset, length - 1);
      assert r[..|out|] == r[..|out'|][..|out|] == out;
      assert r[|out|] == r[..|out'|][|out|];
      assert r[|out| - offset] == r[..|out'|][|out| - offset];
    }
  }

  /** The copy half of an operation: it fails if it reaches before the start or past the limit. */
  function StepCopy(pos: nat, out: seq<Byte>, offset: nat, length: nat, n: nat): (r: Stepped)
  {
    if 1 <= offset <= |out| && |out| + length <= n
    then Next(pos, State(CopyBack(out, offset, length), offset))
    else Fail
  }

  /** One operation at `s`, with an output limit of `n` bytes. */
  function Step(b: seq<Byte>, s: nat, st: State, n: nat): (r: Stepped)
    requires s < |b|
  {
    match ParseOp(b, s)
    case Bad => Fail
    case Parsed(op, size) =>
      var e := s + size;
      match op
      case Literals(k) =>
        if e + k <= |b| && |st.out| + k <= n
        then Next(e + k, State(st.out + b[e..e + k], st.offset))
        else Fail
      case Repeat(length) => StepCopy(e, st.out, st.offset, length, n)
      case Copy(k, offset, length) =>
        if e + k <= |b| && |st.out| + k <= n
        then StepCopy(e + k, st.out + b[e..e + k], offset, length, n)
        else Fail
  }

  lemma StepAdvances(b: seq<Byte>, s: nat, st: State, n: nat)
    requires s < |b| && Step(b, s, st, n).Next?
    ensures s < Step(b, s, st, n).pos <= |b|
    ensures |st.out| <= |Step(b, s, st, n).st.out| <= n
  {
    hide ParseOp;
    ParseOpBounds(b, s);
    var Parsed(op, size) := ParseOp(b, s);
    match op {
      case Literals(k) =>
      case Repeat(length) => CopyBackShape(st.out, st.offset, length);
      case Copy(k, offset, length) => CopyBackShape(st.out + b[s + size..s + size + k], offset, length);
    }
  }

  /** An operation never takes output back, and leaves an offset that the next repeat may have. */
  lemma StepExtends(b: seq<Byte>, s: nat, st: State, n: nat)
    requires s < |b| && st.offset >= 1 && Step(b, s, st, n).Next?
    ensures var r := Step(b, s, st, n);
            s < r.pos <= |b| && st.out <= r.st.out && |r.st.out| <= n && r.st.offset >= 1
  {
    hide ParseOp;
    StepAdvances(b, s, st, n);
    ParseOpBounds(b, s);
    var Parsed(op, size) := ParseOp(b, s);
    match op {
      case Literals(k) =>
      case Repeat(length) => CopyBackShape(st.out, st.offset, length);
      case Copy(k, offset, length) =>
        var out1 := st.out + b[s + size..s + size + k];
        CopyBackShape(out1, offset, length);
        assert CopyBack(out1, offset, length)[..|st.out|] == out1[..|st.out|];
    }
  }

  /** All operations from `s` on; `None` if one of them fails. */
  function Run(b: seq<Byte>, s: nat, st: State, n: nat): (r: Option<State>)
    requires s <= |b|
    decreases |b| - s
  {
    if s == |b| then Some(st)
    else
      match Step(b, s, st, n)
      case Fail => None
      case Next(s', st') => StepAdvances(b, s, st, n); Run(b, s', st', n)
  }

  /** A body decodes if its operations succeed and yield exactly `n` bytes. */
  function DecodeBody(b: seq<Byte>, n: nat): (r: Option<seq<Byte>>)
  {
    match Run(b, 0, INITIAL, n)
    case None => None
    case Some(st) => if |st.out| == n then Some(st.out) else None
  }

  lemma ParsePrefix(b: seq<Byte>, c: seq<Byte>, s: nat)
    requires s < |b|
    ensures ParseLength(b, s).Some? ==> ParseLength(b + c, s) == ParseLength(b, s)
    ensures ParseCopy1(b, s).Parsed? ==> ParseCopy1(b + c, s) == ParseCopy1(b, s)
    ensures ParseFused2(b, s).Parsed? ==> ParseFused2(b + c, s) == ParseFused2(b, s)
  {
  }

  lemma ParseCopyPrefix(b: seq<Byte>, c: seq<Byte>, s: nat)
    requires s < |b|
    ensures ParseCopy2(b, s).Parsed? ==> ParseCopy2(b + c, s) == ParseCopy2(b, s)
    ensures ParseCopy3(b, s).Parsed? ==> ParseCopy3(b + c, s) == ParseCopy3(b, s)
  {
  }

  lemma ParseOpPrefix(b: seq<Byte>, c: seq<Byte>, s: nat)
    requires s < |b| && ParseOp(b, s).Parsed?
    ensures ParseOp(b + c, s) == ParseOp(b, s)
  {
    hide ParseLength; hide ParseCopy1; hide ParseFused2; hide ParseCopy2; hide ParseCopy3;
    ParsePrefix(b, c, s);
    ParseCopyPrefix(b, c, s);
  }

  /** The first bytes of a body parse alike whatever follows. */
  lemma StepPrefix(b: seq<Byte>, c: seq<Byte>, s: nat, st: State, n: nat)
    requires s < |b| && Step(b, s, st, n).Next?
    ensures Step(b + c, s, st, n) == Step(b, s, st, n)
  {
    hide ParseOp;
    var bc := b + c;
    ParseOpBounds(b, s);
    var Parsed(op, size) := ParseOp(b, s);
    ParseOpPrefix(b, c, s);
    match op {
      case Literals(k) => assert bc[s + size..s + size + k] == b[s + size..s + size + k];
      case Repeat(_) =>
      case Copy(k, _, _) => assert bc[s + size..s + size + k] == b[s + size..s + size + k];
    }
  }

  /** Running a body and what follows it is running the one and then the other. */
  lemma {:induction false} RunConcat(b: seq<Byte>, c: seq<Byte>, s: nat, st: State, n: nat)
    requires s <= |b| && Run(b, s, st, n).Some?
    ensures Run(b + c, s, st, n) == Run(b + c, |b|, Run(b, s, st, n).value, n)
    decreases |b| - s
  {
    if s < |b| {
      StepAdvances(b, s, st, n);
      StepPrefix(b, c, s, st, n);
      var Next(s', st') := Step(b, s, st, n);
      RunConcat(b, c, s', st', n);
    }
  }

  lemma ParseShift(b: seq<Byte>, c: seq<Byte>, s: nat)
    requires s < |c|
    ensures ParseLength(b + c, |b| + s) == ParseLength(c, s)
    ensures ParseCopy1(b + c, |b| + s) == ParseCopy1(c, s)
    ensures ParseFused2(b + c, |b| + s) == ParseFused2(c, s)
  {
  }

  lemma ParseCopyShift(b: seq<Byte>, c: seq<Byte>, s: nat)
    requires s < |c|
    ensures ParseCopy2(b + c, |b| + s) == ParseCopy2(c, s)
    ensures ParseCopy3(b + c, |b| + s) == ParseCopy3(c, s)
  {
    hide ParseCopyLength;
    if s + 3 <= |c| { CopyLengthShift(b, c, Load8(c, s) / 4, s + 3); }
    if s + 4 <= |c| { CopyLengthShift(b, c, Load32(c, s) / 32 % 64, s + 4); }
  }

  lemma CopyLengthShift(b: seq<Byte>, c: seq<Byte>, field: nat, s: nat)
    requires field < 64
    ensures ParseCopyLength(b + c, field, |b| + s) == ParseCopyLength(c, field, s)
  {
  }

  /** An operation does not depend on what stands before it in the body. */
  lemma ParseOpShift(b: seq<Byte>, c: seq<Byte>, s: nat)
    requires s < |c|
    ensures ParseOp(b + c, |b| + s) == ParseOp(c, s)
  {
    hide ParseLength; hide ParseCopy1; hide ParseFused2; hide ParseCopy2; hide ParseCopy3;
    ParseShift(b, c, s);
    ParseCopyShift(b, c, s);
  }

  lemma StepShift(b: seq<Byte>, c: seq<Byte>, s: nat, st: State, n: nat)
    requires s < |c|
    ensures Step(b + c, |b| + s, st, n) ==
      match Step(c, s, st, n)
      case Fail => Fail
      case Next(e, st') => Next(|b| + e, st')
  {
    hide ParseOp;
    var bc := b + c;
    ParseOpShift(b, c, s);
    if ParseOp(c, s).Parsed? {
      var Parsed(op, size) := ParseOp(c, s);
      var k := match op case Literals(k) => k case Repeat(_) => 0 case Copy(k, _, _) => k;
      if s + size + k <= |c| {
        assert bc[|b| + s + size..|b| + s + size + k] == c[s + size..s + size + k];
      }
    }
  }

  lemma {:induction false} RunShift(b: seq<Byte>, c: seq<Byte>, s: nat, st: State, n: nat)
    requires s <= |c|
    ensures Run(b + c, |b| + s, st, n) == Run(c, s, st, n)
    decreases |c| - s
  {
    hide Step;
    if s < |c| {
      StepShift(b, c, s, st, n);
      if Step(c, s, st, n).Next? {
        StepAdvances(c, s, st, n);
        RunShift(b, c, Step(c, s, st, n).pos, Step(c, s, st, n).st, n);
      }
    }
  }

  /** Bodies compose: a body that runs, followed by one that runs from the state it left. */
  lemma RunAppend(b: seq<Byte>, c: seq<Byte>, st0: State, st: State, n: nat)
    requires Run(b, 0, st0, n) == Some(st)
    ensures Run(b + c, 0, st0, n) == Run(c, 0, st, n)
  {
    RunConcat(b, c, 0, st0, n);
    RunShift(b, c, 0, st, n);
  }

  /** A larger output limit changes nothing for a body that runs. */
  lemma {:induction false} RunGrow(b: seq<Byte>, s: nat, st: State, n: nat, n': nat)
    requires s <= |b| && n <= n' && Run(b, s, st, n).Some?
    ensures Run(b, s, st, n') == Run(b, s, st, n)
    decreases |b| - s
  {
    if s < |b| {
      StepAdvances(b, s, st, n);
      StepGrow(b, s, st, n, n');
      var Next(s', st') := Step(b, s, st, n);
      RunGrow(b, s', st', n, n');
    }
  }

  lemma StepGrow(b: seq<Byte>, s: nat, st: State, n: nat, n': nat)
    requires s < |b| && n <= n' && Step(b, s, st, n).Next?
    ensures Step(b, s, st, n') == Step(b, s, st, n)
  {
    hide ParseOp;
    hide CopyBack;
  }
}
