/** Properties of the disassembler: when an instruction's operands can be
    read, that generated label names never clash, that the label order is a
    stable sort by target, and where (and whether) each label is printed. */
module DisassemblyFacts {
  import opened Results
  import opened Bytes
  import opened Isa
  import opened Text
  import TextFacts
  import opened Disassembly

  // ---------------------------------------------------------------------
  // Operands

  /** Where the `k`-th operand starts. */
  function ArgOffset(pc: nat, args: seq<ArgType>, k: nat): nat
    requires k <= |args|
  {
    pc + ArgsSize(args[..k])
  }

  /** The operands fit in the program and every register operand names one
      of the eleven printable registers. */
  predicate ArgsFit(program: seq<byte>, pc: nat, args: seq<ArgType>) {
    && pc + ArgsSize(args) <= |program|
    && forall k | 0 <= k < |args| && args[k] == RegArg ::
         ArgOffset(pc, args, k) < |program| && program[ArgOffset(pc, args, k)] < |RegisterLabels|
  }

  lemma ArgsSizeTail(args: seq<ArgType>, k: nat)
    requires 1 <= k <= |args|
    ensures ArgsSize(args[..k]) == ArgSize(args[0]) + ArgsSize(args[1..][..k - 1])
  {
    assert args[..k][1..] == args[1..][..k - 1];
  }

  /** Reading the operands succeeds exactly when they fit. */
  lemma {:induction false} RenderArgsOk(program: seq<byte>, pc: nat, args: seq<ArgType>, count: nat)
    requires pc <= |program|
    ensures RenderArgs(program, pc, args, count).Ok? <==> ArgsFit(program, pc, args)
    decreases |args|
  {
    if |args| > 0 {
      RenderArgsStep(program, pc, args, count);
      if pc + ArgSize(args[0]) <= |program| {
        RenderArgsOk(program, pc + ArgSize(args[0]), args[1..], if args[0] == LabelRef then count + 1 else count);
        ArgsFitStep(program, pc, args);
      }
    }
  }

  /** One operand of `RenderArgs`: it fails when the operand does not fit,
      and otherwise succeeds exactly when the operand is valid and the rest
      render. */
  lemma RenderArgsStep(program: seq<byte>, pc: nat, args: seq<ArgType>, count: nat)
    requires pc <= |program| && |args| > 0
    ensures pc + ArgSize(args[0]) > |program| ==>
              RenderArgs(program, pc, args, count).Err? && !ArgsFit(program, pc, args)
    ensures pc + ArgSize(args[0]) <= |program| ==>
              (RenderArgs(program, pc, args, count).Ok? <==>
               (args[0] == RegArg ==> program[pc] < |RegisterLabels|)
               && RenderArgs(program, pc + ArgSize(args[0]), args[1..], if args[0] == LabelRef then count + 1 else count).Ok?)
  {
  }

  /** The operands fit when the first one fits and the rest fit after it. */
  lemma ArgsFitStep(program: seq<byte>, pc: nat, args: seq<ArgType>)
    requires |args| > 0 && pc + ArgSize(args[0]) <= |program|
    ensures ArgsFit(program, pc, args) <==>
            (args[0] == RegArg ==> program[pc] < |RegisterLabels|) && ArgsFit(program, pc + ArgSize(args[0]), args[1..])
  {
    var step := ArgSize(args[0]);
    var tail := args[1..];
    forall k | 1 <= k <= |args| {
      ArgsSizeTail(args, k);
    }
    if ArgsFit(program, pc + step, tail) && (args[0] == RegArg ==> program[pc] < |RegisterLabels|) {
      forall k | 0 <= k < |args| && args[k] == RegArg
        ensures ArgOffset(pc, args, k) < |program| && program[ArgOffset(pc, args, k)] < |RegisterLabels|
      {
        if k > 0 {
          assert tail[k - 1] == args[k];
          assert ArgOffset(pc, args, k) == ArgOffset(pc + step, tail, k - 1);
        }
      }
    }
    if ArgsFit(program, pc, args) {
      forall k | 0 <= k < |tail| && tail[k] == RegArg
        ensures ArgOffset(pc + step, tail, k) < |program| && program[ArgOffset(pc + step, tail, k)] < |RegisterLabels|
      {
        assert args[k + 1] == tail[k];
        assert ArgOffset(pc, args, k + 1) == ArgOffset(pc + step, tail, k);
      }
    }
  }

  /** The first instruction of a successful decoding: its opcode is in the
      table, it takes one byte plus its operands, and an instruction whose
      one operand is a label reference (a jump or a call) makes the next
      label, aimed at the little-endian address after the opcode. */
  lemma FirstInstruction(program: seq<byte>, pc: nat, count: nat, op: Op)
    requires pc < |program| && DecodeOp(program[pc]) == Some(op)
    requires DecodeFrom(program, pc, count).Ok?
    ensures Operands(op).Some?
    ensures var listing := DecodeFrom(program, pc, count).value;
            && |listing.instructions| >= 1
            && listing.instructions[0].size == 1 + ArgsSize(Operands(op).value)
            && (Operands(op).value == [LabelRef] ==>
                  && pc + 2 < |program| && |listing.labels| >= 1
                  && listing.labels[0] == Label(LabelName(count + 1), Join16(program[pc + 1], program[pc + 2])))
  {
    var args := Operands(op).value;
    var operands := RenderArgs(program, pc + 1, args, count).value;
    var listing := DecodeFrom(program, pc, count).value;
    assert listing.instructions[0].size == operands.pc - pc;
    assert listing.labels == operands.labels + DecodeFrom(program, operands.pc, operands.count).value.labels;
  }

  // ---------------------------------------------------------------------
  // Label names

  lemma LabelNameInjective(a: nat, b: nat)
    requires a != b
    ensures LabelName(a) != LabelName(b)
  {
    assert LabelName(a)[7..] == Decimal(a);
    assert LabelName(b)[7..] == Decimal(b);
    TextFacts.DecimalInjective(a, b);
  }

  /** Every generated label has its own name, so adding it to the label
      dictionary never meets a duplicate key. */
  lemma LabelNamesDistinct(program: seq<byte>, pc: nat, count: nat)
    requires DecodeFrom(program, pc, count).Ok?
    ensures var labels := DecodeFrom(program, pc, count).value.labels;
            forall a, b | 0 <= a < b < |labels| :: labels[a].name != labels[b].name
  {
    NumberedNamesDistinct(DecodeFrom(program, pc, count).value.labels, count);
  }

  lemma NumberedNamesDistinct(labels: seq<Label>, count: nat)
    requires forall k | 0 <= k < |labels| :: labels[k].name == LabelName(count + k + 1)
    ensures forall a, b | 0 <= a < b < |labels| :: labels[a].name != labels[b].name
  {
    forall a, b | 0 <= a < b < |labels|
      ensures labels[a].name != labels[b].name
    {
      LabelNameInjective(count + a + 1, count + b + 1);
    }
  }

  // ---------------------------------------------------------------------
  // Ordering the labels

  predicate SortedByTarget(s: seq<Label>) {
    forall i, j | 0 <= i < j < |s| :: s[i].target <= s[j].target
  }

  /** The labels with target `t`, in order. */
  function WithTarget(s: seq<Label>, t: nat): seq<Label> {
    if |s| == 0 then [] else (if s[0].target == t then [s[0]] else []) + WithTarget(s[1..], t)
  }

  /** Every target in `s` is at least `t`. */
  predicate AllFrom(t: nat, s: seq<Label>) {
    forall i | 0 <= i < |s| :: t <= s[i].target
  }

  lemma {:induction false} InsertMultiset(l: Label, sorted: seq<Label>)
    ensures multiset(InsertByTarget(l, sorted)) == multiset(sorted) + multiset{l}
    decreases |sorted|
  {
    if |sorted| > 0 && l.target > sorted[0].target {
      InsertMultiset(l, sorted[1..]);
      assert sorted == [sorted[0]] + sorted[1..];
    }
  }

  lemma {:induction false} InsertAllFrom(t: nat, l: Label, sorted: seq<Label>)
    requires AllFrom(t, sorted) && t <= l.target
    ensures AllFrom(t, InsertByTarget(l, sorted))
    decreases |sorted|
  {
    if |sorted| > 0 && l.target > sorted[0].target {
      InsertAllFrom(t, l, sorted[1..]);
    }
  }

  lemma SortedCons(x: Label, s: seq<Label>)
    requires AllFrom(x.target, s) && SortedByTarget(s)
    ensures SortedByTarget([x] + s)
  {
    var full := [x] + s;
    forall i, j | 0 <= i < j < |full|
      ensures full[i].target <= full[j].target
    {
      assert full[j] == s[j - 1];
      if i > 0 {
        assert full[i] == s[i - 1];
      }
    }
  }

  lemma {:induction false} InsertSorted(l: Label, sorted: seq<Label>)
    requires SortedByTarget(sorted)
    ensures SortedByTarget(InsertByTarget(l, sorted))
    decreases |sorted|
  {
    if |sorted| == 0 || l.target <= sorted[0].target {
      SortedCons(l, sorted);
    } else {
      var rest := sorted[1..];
      InsertSorted(l, rest);
      InsertAllFrom(sorted[0].target, l, rest);
      SortedCons(sorted[0], InsertByTarget(l, rest));
    }
  }

  /** `l` goes before every label already there with the same target. */
  lemma {:induction false} InsertStable(l: Label, sorted: seq<Label>, t: nat)
    requires SortedByTarget(sorted)
    ensures WithTarget(InsertByTarget(l, sorted), t) == (if l.target == t then [l] else []) + WithTarget(sorted, t)
    decreases |sorted|
  {
    if |sorted| == 0 || l.target <= sorted[0].target {
      assert InsertByTarget(l, sorted) == [l] + sorted;
      assert ([l] + sorted)[1..] == sorted;
    } else {
      var rest := sorted[1..];
      InsertStable(l, rest, t);
      var inner := InsertByTarget(l, rest);
      var r := [sorted[0]] + inner;
      assert r == InsertByTarget(l, sorted);
      assert r[1..] == inner;
      assert WithTarget(r, t) == (if sorted[0].target == t then [sorted[0]] else []) + WithTarget(inner, t);
      assert WithTarget(sorted, t) == (if sorted[0].target == t then [sorted[0]] else []) + WithTarget(rest, t);
    }
  }

  /** The label order is sorted by target. */
  lemma {:induction false} SortByTargetSorted(labels: seq<Label>)
    ensures SortedByTarget(SortByTarget(labels))
    decreases |labels|
  {
    if |labels| > 0 {
      SortByTargetSorted(labels[1..]);
      InsertSorted(labels[0], SortByTarget(labels[1..]));
    }
  }

  /** No label is lost or added by the sort. */
  lemma {:induction false} SortByTargetPermutes(labels: seq<Label>)
    ensures multiset(SortByTarget(labels)) == multiset(labels)
    decreases |labels|
  {
    if |labels| > 0 {
      SortByTargetPermutes(labels[1..]);
      InsertMultiset(labels[0], SortByTarget(labels[1..]));
      assert labels == [labels[0]] + labels[1..];
    }
  }

  /** Among labels with the same target, the sort keeps the order in which
      they were made (`OrderBy` is stable). */
  lemma {:induction false} SortByTargetStable(labels: seq<Label>, t: nat)
    ensures WithTarget(SortByTarget(labels), t) == WithTarget(labels, t)
    decreases |labels|
  {
    if |labels| > 0 {
      SortByTargetStable(labels[1..], t);
      SortByTargetSorted(labels[1..]);
      InsertStable(labels[0], SortByTarget(labels[1..]), t);
    }
  }

  /** Two labels with one target both show up in that target's labels. */
  lemma {:induction false} SharedTargetInFilter(s: seq<Label>, a: nat, b: nat)
    requires a < b < |s| && s[a].target == s[b].target
    ensures |WithTarget(s, s[a].target)| >= 2
    decreases |s|
  {
    var t := s[a].target;
    if a == 0 {
      assert s[1..][b - 1] == s[b];
      TargetInFilter(s[1..], b - 1);
    } else {
      assert s[1..][a - 1] == s[a] && s[1..][b - 1] == s[b];
      SharedTargetInFilter(s[1..], a - 1, b - 1);
    }
  }

  lemma {:induction false} TargetInFilter(s: seq<Label>, a: nat)
    requires a < |s|
    ensures |WithTarget(s, s[a].target)| >= 1
    decreases |s|
  {
    if a > 0 {
      assert s[1..][a - 1] == s[a];
      TargetInFilter(s[1..], a - 1);
    }
  }

  predicate DistinctTargets(s: seq<Label>) {
    forall a, b | 0 <= a < b < |s| :: s[a].target != s[b].target
  }

  lemma {:induction false} DistinctFilter(s: seq<Label>, t: nat)
    requires DistinctTargets(s)
    ensures |WithTarget(s, t)| <= 1
    decreases |s|
  {
    if |s| > 0 {
      DistinctFilter(s[1..], t);
      if s[0].target == t && |WithTarget(s[1..], t)| == 1 {
        var b := FilterWitness(s[1..], t);
      }
    }
  }

  /** A label of `s` with target `t`, when there is one. */
  lemma {:induction false} FilterWitness(s: seq<Label>, t: nat) returns (k: nat)
    requires |WithTarget(s, t)| >= 1
    ensures k < |s| && s[k].target == t
    decreases |s|
  {
    if s[0].target == t {
      k := 0;
    } else {
      var k' := FilterWitness(s[1..], t);
      k := k' + 1;
    }
  }

  /** Distinct targets stay distinct, and so strictly increasing, once sorted. */
  lemma SortedDistinct(labels: seq<Label>)
    requires DistinctTargets(labels)
    ensures var sorted := SortByTarget(labels);
            forall a, b | 0 <= a < b < |sorted| :: sorted[a].target < sorted[b].target
  {
    var sorted := SortByTarget(labels);
    SortByTargetSorted(labels);
    forall a, b | 0 <= a < b < |sorted|
      ensures sorted[a].target < sorted[b].target
    {
      if sorted[a].target == sorted[b].target {
        SortByTargetStable(labels, sorted[a].target);
        SharedTargetInFilter(sorted, a, b);
        DistinctFilter(labels, sorted[a].target);
        assert false;
      }
    }
  }

  // ---------------------------------------------------------------------
  // Printing the labels

  /** The labels printed, in order. */
  function Printed(rows: seq<Row>): seq<Label> {
    if |rows| == 0 then []
    else
      (match rows[0].heading
       case Some(l) => [l]
       case None => [])
      + Printed(rows[1..])
  }

  /** `p` is the run of `sorted` that starts at index `next`. */
  predicate RunFrom(sorted: seq<Label>, next: nat, p: seq<Label>) {
    next + |p| <= |sorted| && p == sorted[next..next + |p|]
  }

  /** The printed labels are the next ones of the sorted order, in order:
      a label that is not printed holds back all that follow it. */
  lemma {:induction false} PrintedInOrder(instrs: seq<Instruction>, sorted: seq<Label>, next: nat, offset: nat, indent: string)
    requires next <= |sorted|
    ensures RunFrom(sorted, next, Printed(Rows(instrs, sorted, next, offset, indent)))
    decreases |instrs|
  {
    if |instrs| == 0 {
      assert sorted[next..next] == [];
    } else {
      PrintedStep(instrs, sorted, next, offset, indent);
      if next < |sorted| && offset == sorted[next].target {
        PrintedInOrder(instrs[1..], sorted, next + 1, offset + instrs[0].size, Indent);
        PrefixJoin(sorted, next, Printed(Rows(instrs, sorted, next, offset, indent)),
                   Printed(Rows(instrs[1..], sorted, next + 1, offset + instrs[0].size, Indent)));
      } else {
        PrintedInOrder(instrs[1..], sorted, next, offset + instrs[0].size, indent);
      }
    }
  }

  /** A label in front of the run of labels after it is the run from it. */
  lemma PrefixJoin(sorted: seq<Label>, next: nat, whole: seq<Label>, rest: seq<Label>)
    requires next < |sorted| && RunFrom(sorted, next + 1, rest)
    requires whole == [sorted[next]] + rest
    ensures RunFrom(sorted, next, whole)
  {
    ConsSlice(sorted, next, rest);
  }

  /** An element in front of the slice that follows it extends the slice. */
  lemma ConsSlice<T>(s: seq<T>, n: nat, q: seq<T>)
    requires n + 1 + |q| <= |s| && q == s[n + 1..n + 1 + |q|]
    ensures [s[n]] + q == s[n..n + 1 + |q|]
  {
  }

  /** One row's worth of `Printed`: the label printed before the first
      instruction, if any, then the rest. */
  lemma PrintedStep(instrs: seq<Instruction>, sorted: seq<Label>, next: nat, offset: nat, indent: string)
    requires |instrs| > 0
    ensures next < |sorted| && offset == sorted[next].target ==>
              Printed(Rows(instrs, sorted, next, offset, indent))
              == [sorted[next]] + Printed(Rows(instrs[1..], sorted, next + 1, offset + instrs[0].size, Indent))
    ensures !(next < |sorted| && offset == sorted[next].target) ==>
              Printed(Rows(instrs, sorted, next, offset, indent))
              == Printed(Rows(instrs[1..], sorted, next, offset + instrs[0].size, indent))
  {
    var here := next < |sorted| && offset == sorted[next].target;
    var rows := Rows(instrs, sorted, next, offset, indent);
    assert rows[1..] == Rows(instrs[1..], sorted, if here then next + 1 else next, offset + instrs[0].size, if here then Indent else indent);
    if !here {
      assert Printed(rows) == [] + Printed(rows[1..]);
      assert [] + Printed(rows[1..]) == Printed(rows[1..]);
    }
  }

  /** The offsets at which the instructions start, the first at `offset`. */
  function Offsets(instrs: seq<Instruction>, offset: nat): (r: seq<nat>)
    ensures |r| == |instrs|
  {
    if |instrs| == 0 then [] else [offset] + Offsets(instrs[1..], offset + instrs[0].size)
  }

  /** The `i`-th offset is `offset` plus the sizes before instruction `i`. */
  lemma {:induction false} OffsetsAreSums(instrs: seq<Instruction>, offset: nat, i: nat)
    requires i < |instrs|
    ensures Offsets(instrs, offset)[i] == offset + TotalSize(instrs[..i])
    decreases i
  {
    if i == 0 {
      assert instrs[..0] == [];
    } else {
      OffsetsAreSums(instrs[1..], offset + instrs[0].size, i - 1);
      assert instrs[..i][1..] == instrs[1..][..i - 1];
    }
  }

  lemma {:induction false} OffsetsAtLeast(instrs: seq<Instruction>, offset: nat, t: nat)
    requires t in Offsets(instrs, offset)
    ensures t >= offset
    decreases |instrs|
  {
    if t != offset {
      OffsetsAtLeast(instrs[1..], offset + instrs[0].size, t);
    }
  }

  /** When the targets are distinct and each is the offset of an
      instruction, every label is printed. */
  lemma {:induction false} EveryLabelPrinted(instrs: seq<Instruction>, sorted: seq<Label>, next: nat, offset: nat, indent: string)
    requires next <= |sorted|
    requires forall a, b | next <= a < b < |sorted| :: sorted[a].target < sorted[b].target
    requires forall j | next <= j < |sorted| :: sorted[j].target in Offsets(instrs, offset)
    ensures Printed(Rows(instrs, sorted, next, offset, indent)) == sorted[next..]
    decreases |instrs|
  {
    if |instrs| == 0 {
      assert sorted[next..] == [];
    } else {
      PrintedStep(instrs, sorted, next, offset, indent);
      if next < |sorted| && offset == sorted[next].target {
        LaterOffsets(instrs, sorted, next, next + 1, offset);
        EveryLabelPrinted(instrs[1..], sorted, next + 1, offset + instrs[0].size, Indent);
        PrintedJoin(sorted, next, Printed(Rows(instrs, sorted, next, offset, indent)),
                    Printed(Rows(instrs[1..], sorted, next + 1, offset + instrs[0].size, Indent)));
      } else {
        LaterOffsets(instrs, sorted, next, next, offset);
        EveryLabelPrinted(instrs[1..], sorted, next, offset + instrs[0].size, indent);
      }
    }
  }

  /** A label followed by the labels after it is the suffix from it. */
  lemma PrintedJoin(sorted: seq<Label>, next: nat, whole: seq<Label>, rest: seq<Label>)
    requires next < |sorted|
    requires whole == [sorted[next]] + rest && rest == sorted[next + 1..]
    ensures whole == sorted[next..]
  {
    ConsSlice(sorted, next, rest);
  }

  /** The targets not printed at the first instruction are offsets of the
      rest. */
  lemma LaterOffsets(instrs: seq<Instruction>, sorted: seq<Label>, next: nat, next': nat, offset: nat)
    requires |instrs| > 0 && next <= next' <= |sorted|
    requires forall a, b | next <= a < b < |sorted| :: sorted[a].target < sorted[b].target
    requires forall j | next <= j < |sorted| :: sorted[j].target in Offsets(instrs, offset)
    requires if next < |sorted| && offset == sorted[next].target then next' == next + 1 else next' == next
    ensures forall j | next' <= j < |sorted| :: sorted[j].target in Offsets(instrs[1..], offset + instrs[0].size)
  {
    forall j | next' <= j < |sorted|
      ensures sorted[j].target in Offsets(instrs[1..], offset + instrs[0].size)
    {
      OffsetsAtLeast(instrs, offset, sorted[next].target);
      assert sorted[j].target != offset;
    }
  }

  /** Once the offset has moved past the next label's target, nothing more
      is printed. */
  lemma {:induction false} PassedLabelBlocks(instrs: seq<Instruction>, sorted: seq<Label>, next: nat, offset: nat, indent: string)
    requires next < |sorted| && sorted[next].target < offset
    ensures Printed(Rows(instrs, sorted, next, offset, indent)) == []
    decreases |instrs|
  {
    if |instrs| > 0 {
      var rows := Rows(instrs, sorted, next, offset, indent);
      assert rows[1..] == Rows(instrs[1..], sorted, next, offset + instrs[0].size, indent);
      PassedLabelBlocks(instrs[1..], sorted, next, offset + instrs[0].size, indent);
    }
  }

  /** Two labels with one target: the first is printed at most once and the
      second never, because no later instruction starts at the same offset;
      so no label after them is printed either. */
  lemma {:induction false} SharedTargetBlocks(instrs: seq<Instruction>, sorted: seq<Label>, next: nat, offset: nat, indent: string)
    requires next + 1 < |sorted| && sorted[next].target == sorted[next + 1].target
    requires forall i | 0 <= i < |instrs| :: instrs[i].size >= 1
    ensures |Printed(Rows(instrs, sorted, next, offset, indent))| <= 1
    decreases |instrs|
  {
    if |instrs| > 0 {
      var here := offset == sorted[next].target;
      var indent' := if here then Indent else indent;
      var offset' := offset + instrs[0].size;
      var rows := Rows(instrs, sorted, next, offset, indent);
      if here {
        assert rows[1..] == Rows(instrs[1..], sorted, next + 1, offset', indent');
        PassedLabelBlocks(instrs[1..], sorted, next + 1, offset', indent');
      } else {
        assert rows[1..] == Rows(instrs[1..], sorted, next, offset', indent');
        assert forall i | 0 <= i < |instrs| - 1 :: instrs[1..][i] == instrs[i + 1];
        SharedTargetBlocks(instrs[1..], sorted, next, offset', indent');
      }
    }
  }

  /** A decoded program whose jump and call targets are distinct instruction
      offsets (counted from the first decoded byte) gets every label printed,
      in target order. */
  lemma ListingPrintsEveryLabel(listing: Listing, implicitStart: bool)
    requires DistinctTargets(listing.labels)
    requires forall k | 0 <= k < |listing.labels| :: listing.labels[k].target in Offsets(listing.instructions, 0)
    ensures Printed(ListingRows(listing, implicitStart)) == SortByTarget(listing.labels)
  {
    var sorted := SortByTarget(listing.labels);
    SortedDistinct(listing.labels);
    SortByTargetPermutes(listing.labels);
    forall j | 0 <= j < |sorted|
      ensures sorted[j].target in Offsets(listing.instructions, 0)
    {
      assert sorted[j] in multiset(listing.labels);
    }
    EveryLabelPrinted(listing.instructions, sorted, 0, 0, if implicitStart then "" else Indent);
  }

  // ---------------------------------------------------------------------
  // The text

  /** Unless the start section is implicit, the listing opens with `_start:`. */
  lemma StartLabelFirst(program: seq<byte>, implicitStart: bool)
    requires Disassemble(program, implicitStart).Ok? && !implicitStart
    ensures StartsWith(Disassemble(program, implicitStart).value, "_start:\n")
  {
    var listing := DecodeFrom(program, Start(program).value, 0).value;
    assert Disassemble(program, implicitStart).value == Joined(ListingLines(listing, false));
    ListingOpensWithStart(listing);
  }

  lemma ListingOpensWithStart(listing: Listing)
    ensures StartsWith(Joined(ListingLines(listing, false)), "_start:\n")
  {
    var lines := ListingLines(listing, false);
    assert lines[0] == "_start:";
    assert Joined(lines) == "_start:\n" + Joined(lines[1..]);
  }
}
