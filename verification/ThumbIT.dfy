/** The IT-block stack of the Thumb-16 cracker, against ITSTATE of the ARM Architecture
    Reference Manual (DDI 0406B, sections A2.5.2 and A8.6.50). */
module ThumbIT {

  const AL: bv8 := 14

  /** The cracker's test: the byte above, and a mask that is not one of the hints'. */
  predicate IsIT(insn: bv16) {
    insn & 0xFF00 == 0xBF00 && insn & 0xF != 0
  }

  function FirstCond(insn: bv16): bv8 {
    ((insn >> 4) & 0xF) as bv8
  }

  function Mask(insn: bv16): bv8 {
    (insn & 0xF) as bv8
  }

  /** The block's condition or its opposite, as bit b says. */
  function Variant(firstcond: bv8, b: bv8): bv8 {
    (firstcond & 0xE) ^ (b & 1)
  }

  /** The conditions an IT instruction pushes, bottom of the stack first. */
  function Pushed(firstcond: bv8, mask: bv8): seq<bv8> {
    if mask == 8 then [firstcond]
    else if mask == 4 || mask == 12 then [Variant(firstcond, mask >> 3), firstcond]
    else if mask == 2 || mask == 6 || mask == 10 || mask == 14 then
      [Variant(firstcond, mask >> 2), Variant(firstcond, mask >> 3), firstcond]
    else [Variant(firstcond, mask >> 1), Variant(firstcond, mask >> 2), Variant(firstcond, mask >> 3), firstcond]
  }

  /** The condition the cracker uses for the next instruction. */
  function Current(stack: seq<bv8>): bv8 {
    if stack == [] then AL else stack[|stack| - 1]
  }

  /** The stack after one instruction: pop if there is something to pop, then push if the
      instruction is an IT and is not itself conditional. */
  function StackStep(stack: seq<bv8>, insn: bv16): seq<bv8> {
    var popped := if stack == [] then [] else stack[..|stack| - 1];
    if IsIT(insn) && Current(stack) == AL then popped + Pushed(FirstCond(insn), Mask(insn)) else popped
  }

  class ThumbCrack {
    var itblockVector: seq<bv8>

    constructor ()
      ensures itblockVector == []
    {
      itblockVector := [];
    }

    /** The pushes of an IT instruction. */
    method PushConditions(firstcond: bv8, mask: bv8)
      modifies this
      ensures itblockVector == old(itblockVector) + Pushed(firstcond, mask)
    {
      if mask == 8 {
        itblockVector := itblockVector + [firstcond];
      } else if mask == 4 || mask == 12 {
        itblockVector := itblockVector + [Variant(firstcond, mask >> 3)];
        itblockVector := itblockVector + [firstcond];
      } else if mask == 2 || mask == 6 || mask == 10 || mask == 14 {
        itblockVector := itblockVector + [Variant(firstcond, mask >> 2)];
        itblockVector := itblockVector + [Variant(firstcond, mask >> 3)];
        itblockVector := itblockVector + [firstcond];
      } else {
        itblockVector := itblockVector + [Variant(firstcond, mask >> 1)];
        itblockVector := itblockVector + [Variant(firstcond, mask >> 2)];
        itblockVector := itblockVector + [Variant(firstcond, mask >> 3)];
        itblockVector := itblockVector + [firstcond];
      }
    }

    /** The part of thumb16expand that reads and updates the stack. */
    method Expand(insn: bv16) returns (inITBlock: bool, cond: bv8)
      modifies this
      ensures inITBlock == (old(itblockVector) != []) && cond == Current(old(itblockVector))
      ensures itblockVector == StackStep(old(itblockVector), insn)
    {
      cond := AL;
      if itblockVector == [] {
        inITBlock := false;
      } else {
        inITBlock := true;
        cond := itblockVector[|itblockVector| - 1];
        itblockVector := itblockVector[..|itblockVector| - 1];
      }
      if IsIT(insn) && cond == AL {
        PushConditions(FirstCond(insn), Mask(insn));
      }
    }
  }

  // ----- ITSTATE -----

  predicate InITBlock(it: bv8) {
    it & 0xF != 0
  }

  function ITAdvance(it: bv8): bv8 {
    if it & 7 == 0 then 0 else (it & 0xE0) | ((it << 1) & 0x1F)
  }

  /** The manual's encoding T1: 1011 1111 firstcond mask, with a non-zero mask. */
  predicate IsITEncoding(insn: bv16) {
    0xBF00 <= insn <= 0xBFFF && insn % 16 != 0
  }

  function ArmStep(it: bv8, insn: bv16): bv8 {
    if IsITEncoding(insn) then (insn & 0xFF) as bv8 else ITAdvance(it)
  }

  /** How many instructions the block still covers. */
  function Remaining(it: bv8): nat {
    if it & 0xF == 0 then 0
    else if it & 7 == 0 then 1
    else if it & 3 == 0 then 2
    else if it & 1 == 0 then 3
    else 4
  }

  /** The conditions ITSTATE goes through, last one first. */
  function Pending(it: bv8): seq<bv8>
    decreases Remaining(it)
  {
    if InITBlock(it) then
      AdvanceShrinks(it);
      Pending(ITAdvance(it)) + [it >> 4]
    else []
  }

  lemma AdvanceShrinks(it: bv8)
    requires InITBlock(it)
    ensures Remaining(ITAdvance(it)) == Remaining(it) - 1
  {
  }

  lemma DecodesIT(insn: bv16)
    ensures IsIT(insn) <==> IsITEncoding(insn)
  {
  }

  /** All 240 IT instructions push exactly what ITSTATE will go through. */
  lemma PushedIsPending(insn: bv16)
    requires IsITEncoding(insn)
    ensures Pushed(FirstCond(insn), Mask(insn)) == Pending((insn & 0xFF) as bv8)
  {
    var it := (insn & 0xFF) as bv8;
    assert it >> 4 == FirstCond(insn) && it & 0xF == Mask(insn);
    FieldsArePending(it);
  }

  lemma FieldsArePending(it: bv8)
    requires InITBlock(it)
    ensures Pushed(it >> 4, it & 0xF) == Pending(it)
  {
    var it1 := ITAdvance(it);
    var it2 := ITAdvance(it1);
    var it3 := ITAdvance(it2);
    assert Pending(ITAdvance(it3)) == [];
    assert Pending(it3) == if InITBlock(it3) then [it3 >> 4] else [];
    assert Pending(it2) == if InITBlock(it2) then Pending(it3) + [it2 >> 4] else [];
    assert Pending(it1) == if InITBlock(it1) then Pending(it2) + [it1 >> 4] else [];
  }

  /** Outside a block, for each of the 65536 encodings: an IT opens the block ITSTATE goes
      through, and nothing else opens one. */
  lemma OnlyITOpens(insn: bv16)
    ensures 0xBF00 <= insn <= 0xBFFF && insn % 16 != 0 ==> StackStep([], insn) == Pending((insn & 0xFF) as bv8)
    ensures !(0xBF00 <= insn <= 0xBFFF && insn % 16 != 0) ==> StackStep([], insn) == []
  {
    DecodesIT(insn);
    if IsITEncoding(insn) {
      PushedIsPending(insn);
      assert [] + Pushed(FirstCond(insn), Mask(insn)) == Pushed(FirstCond(insn), Mask(insn));
    }
  }

  // ----- every stream -----

  /** The stacks and ITSTATE values a stream of 16-bit instructions passes through. */
  ghost predicate IsStream(insns: seq<bv16>, stacks: seq<seq<bv8>>, its: seq<bv8>) {
    && |stacks| == |its| == |insns| + 1
    && stacks[0] == [] && its[0] == 0
    && (forall k :: 0 <= k < |insns| ==>
          stacks[k + 1] == StackStep(stacks[k], insns[k]) && its[k + 1] == ArmStep(its[k], insns[k]))
  }

  /** No IT instruction inside an IT block, which the manual calls unpredictable. */
  ghost predicate NoNestedIT(insns: seq<bv16>, its: seq<bv8>)
    requires |its| == |insns| + 1
  {
    forall k :: 0 <= k < |insns| && IsITEncoding(insns[k]) ==> !InITBlock(its[k])
  }

  lemma {:induction false} PendingTop(it: bv8)
    ensures Pending(it) == [] <==> !InITBlock(it)
    ensures InITBlock(it) ==> Current(Pending(it)) == it >> 4
    ensures |Pending(it)| == Remaining(it)
    decreases Remaining(it)
  {
    if InITBlock(it) {
      AdvanceShrinks(it);
      PendingTop(ITAdvance(it));
    }
  }

  /** One pop is one ITAdvance. */
  lemma PopIsAdvance(it: bv8, insn: bv16)
    requires !IsITEncoding(insn)
    ensures StackStep(Pending(it), insn) == Pending(ITAdvance(it))
  {
    DecodesIT(insn);
    if !InITBlock(it) {
      assert ITAdvance(it) == 0;
    }
  }

  /** The stack simulates ITSTATE over every stream without nested IT. */
  lemma {:induction false} StackSimulatesITSTATE(insns: seq<bv16>, stacks: seq<seq<bv8>>, its: seq<bv8>, k: nat)
    requires IsStream(insns, stacks, its) && NoNestedIT(insns, its) && k <= |insns|
    ensures stacks[k] == Pending(its[k])
  {
    if k > 0 {
      StackSimulatesITSTATE(insns, stacks, its, k - 1);
      var it, insn := its[k - 1], insns[k - 1];
      DecodesIT(insn);
      if IsITEncoding(insn) {
        PushedIsPending(insn);
        assert stacks[k - 1] == [];
      } else {
        PopIsAdvance(it, insn);
      }
    }
  }

  /** So the cracker's notion of "in an IT block" and of the current condition is the manual's. */
  lemma ConditionIsArchitectural(insns: seq<bv16>, stacks: seq<seq<bv8>>, its: seq<bv8>, k: nat)
    requires IsStream(insns, stacks, its) && NoNestedIT(insns, its) && k <= |insns|
    ensures stacks[k] != [] <==> InITBlock(its[k])
    ensures Current(stacks[k]) == if InITBlock(its[k]) then its[k] >> 4 else AL
  {
    StackSimulatesITSTATE(insns, stacks, its, k);
    PendingTop(its[k]);
  }
}
