/** The register-allocating code generator: the parser actions of a small
    expression language that emit ARM assembly lines. The grammar machinery
    is not modelled; each action takes the values its rule has already
    reduced. */
module Codegen {
  import opened LspTypes

  /** The exceptions the actions raise. */
  datatype Error =
    | NoFreeRegisters        // `get_free_reg`
    | IntegerTooBig          // an assigned integer outside -255..255
    | UndefinedName(name: string)
    | OperandNotRegister     // the `TypeError` of joining an integer into an instruction

  datatype Result<T> = Ok(value: T) | Err(error: Error)

  /** The value of a reduced expression: an integer literal or a register name. */
  datatype Value = Int(n: int) | Reg(name: string)

  datatype Op = Add | Sub | Mul | Div | Mod | Lt | Gt

  predicate IsComparison(op: Op)
  {
    op == Lt || op == Gt
  }

  const NoOfRegs: nat := 13

  /** Assigned integers must lie in -255..255. */
  predicate InRange(n: int)
  {
    -255 <= n <= 255
  }

  function Digit(d: nat): (c: char)
    requires d < 10
    ensures '0' <= c <= '9'
  {
    "0123456789"[d]
  }

  /** `str(n)` of a natural number. */
  function NatToString(n: nat): (s: string)
    ensures n < 10 <==> |s| == 1
    ensures |s| >= 1
    ensures forall k :: 0 <= k < |s| ==> '0' <= s[k] <= '9'
  {
    if n < 10 then [Digit(n)] else NatToString(n / 10) + [Digit(n % 10)]
  }

  /** `str(n)` of an integer. */
  function IntToString(n: int): string
  {
    if n < 0 then "-" + NatToString(-n) else NatToString(n)
  }

  /** The register `"r" + str(i)`. */
  function RegName(i: nat): (reg: string)
    ensures |reg| >= 2 && reg[0] == 'r'
    ensures forall k :: 1 <= k < |reg| ==> '0' <= reg[k] <= '9'
    ensures i < 10 <==> |reg| == 2
  {
    "r" + NatToString(i)
  }

  lemma DigitInjective(x: nat, y: nat)
    requires x < 10 && y < 10 && Digit(x) == Digit(y)
    ensures x == y
  {
  }

  /** Different numbers print differently. */
  lemma {:induction false} NatToStringInjective(a: nat, b: nat)
    requires NatToString(a) == NatToString(b)
    ensures a == b
  {
    if a < 10 {
      DigitInjective(a, b);
    } else {
      var s := NatToString(a);
      assert s == NatToString(a / 10) + [Digit(a % 10)] == NatToString(b / 10) + [Digit(b % 10)];
      assert s[..|s| - 1] == NatToString(a / 10) && s[..|s| - 1] == NatToString(b / 10);
      DigitInjective(a % 10, b % 10);
      NatToStringInjective(a / 10, b / 10);
    }
  }

  /** The thirteen registers are thirteen different names. */
  lemma RegNamesDistinct(i: nat, j: nat)
    requires RegName(i) == RegName(j)
    ensures i == j
  {
    assert RegName(i)[1..] == NatToString(i);
    assert RegName(j)[1..] == NatToString(j);
    NatToStringInjective(i, j);
  }

  /** `add_instruction`'s line: the instruction between a tab and a newline. */
  function Line(instr: string): (line: string)
    ensures |line| == |instr| + 2 && line[0] == '\t' && line[|line| - 1] == '\n'
    ensures line[1..|line| - 1] == instr
  {
    "\t" + instr + "\n"
  }

  function Lines(instrs: seq<string>): (lines: seq<string>)
    ensures |lines| == |instrs|
    ensures forall i :: 0 <= i < |instrs| ==> lines[i] == Line(instrs[i])
  {
    if instrs == [] then [] else [Line(instrs[0])] + Lines(instrs[1..])
  }

  /** The instruction starts with the mnemonic `m` and a space. */
  predicate StartsWithMnemonic(instr: string, m: string)
  {
    |instr| > |m| && instr[..|m|] == m && instr[|m|] == ' '
  }

  /** The condition-code table of `handle_condition`: after the comparison,
      the first conditional move (stack length 1 after the pop) fires when
      the comparison holds and the second (length 0) when it does not. */
  function CondInstr(op: Op, stackLength: int): (instr: Option<string>)
    ensures instr.Some? <==> IsComparison(op) && (stackLength == 0 || stackLength == 1)
  {
    match (op, stackLength)
    case (Lt, 0) => Some("MOVGE")
    case (Lt, 1) => Some("MOVLT")
    case (Gt, 0) => Some("MOVLE")
    case (Gt, 1) => Some("MOVGT")
    case _ => None
  }

  /** Whether a conditional move fires after `CMP x, y`, as the ARM condition
      codes GE, LT, LE and GT define it. */
  predicate Fires(instr: string, x: int, y: int)
  {
    if instr == "MOVGE" then x >= y
    else if instr == "MOVLT" then x < y
    else if instr == "MOVLE" then x <= y
    else if instr == "MOVGT" then x > y
    else false
  }

  /** What the comparison operator means. */
  predicate Compare(op: Op, x: int, y: int)
    requires IsComparison(op)
  {
    if op == Lt then x < y else x > y
  }

  /** The two conditional moves of a comparison fire on exactly opposite
      outcomes: the first when the comparison holds, the second when not. */
  lemma ConditionalMovesSelectBranch(op: Op, x: int, y: int)
    requires IsComparison(op)
    ensures Fires(CondInstr(op, 1).value, x, y) <==> Compare(op, x, y)
    ensures Fires(CondInstr(op, 0).value, x, y) <==> !Compare(op, x, y)
  {
  }

  /** The formatting of an assigned value in `f"...#{value}"`. */
  function Format(value: Value): string
  {
    match value
    case Int(n) => IntToString(n)
    case Reg(name) => name
  }

  function CondLine(instr: string, reg: string, value: Value): string
  {
    instr + " " + reg + " ,#" + Format(value)
  }

  function MovLine(reg: string, n: int): string
  {
    "MOV " + reg + " ,#" + IntToString(n)
  }

  /** The mnemonics `p_expression_math` emits for each operator, in order. */
  function Mnemonics(op: Op): seq<string>
  {
    match op
    case Add => ["ADD"]
    case Sub => ["SUB"]
    case Mul => ["MUL"]
    case Div => ["SDIV"]
    case Mod => ["SDIV", "MLS"]
    case Lt => ["CMP"]
    case Gt => ["CMP"]
  }

  /** The instructions `p_expression_math` emits for `a op b` into `d`; the
      remainder is `SDIV` followed by `MLS d, d, b, a` (d := a - d * b). */
  function MathInstructions(op: Op, d: string, a: string, b: string): (instrs: seq<string>)
    ensures |instrs| == |Mnemonics(op)|
    ensures forall i :: 0 <= i < |instrs| ==> StartsWithMnemonic(instrs[i], Mnemonics(op)[i])
  {
    match op
    case Add => ["ADD " + d + " ," + a + " ," + b]
    case Sub => ["SUB " + d + " ," + a + " ," + b]
    case Mul => ["MUL " + d + ", " + a + ", " + b]
    case Div => ["SDIV " + d + ", " + a + ", " + b]
    case Mod => ["SDIV " + d + ", " + a + ", " + b, "MLS " + d + ", " + d + ", " + b + ", " + a]
    case Lt => ["CMP " + a + ", " + b]
    case Gt => ["CMP " + a + ", " + b]
  }

  /** The stack after `pop`; an empty stack is not popped. */
  function Popped(stack: seq<Op>): seq<Op>
  {
    if stack == [] then [] else stack[..|stack| - 1]
  }

  /** The generator's module-level state. */
  class CodeGen {
    var asm: seq<string>
    var nameToRegister: map<string, string>
    var stack: seq<Op>
    var registersInUseInternally: seq<string>
    var currentRegister: string

    /** The internal register list is empty between actions (each push is
        popped at once) and only comparison operators are stacked. */
    predicate Valid()
      reads this
    {
      && registersInUseInternally == []
      && forall i :: 0 <= i < |stack| ==> IsComparison(stack[i])
    }

    constructor ()
      ensures Valid()
      ensures asm == [] && nameToRegister == map[] && stack == []
      ensures registersInUseInternally == [] && currentRegister == ""
    {
      asm := [];
      nameToRegister := map[];
      stack := [];
      registersInUseInternally := [];
      currentRegister := "";
    }

    /** No name, no internal use and not the current register. */
    predicate IsFree(reg: string)
      reads this`nameToRegister, this`registersInUseInternally, this`currentRegister
    {
      reg !in nameToRegister.Values && reg !in registersInUseInternally && reg != currentRegister
    }

    /** `name_to_register.get(name)` is truthy: present and not empty. */
    predicate IsMapped(name: string)
      reads this`nameToRegister
    {
      name in nameToRegister && nameToRegister[name] != ""
    }

    /** The lowest free register index at or after `i`. */
    function LowestFreeFrom(i: nat): (r: Option<nat>)
      reads this`nameToRegister, this`registersInUseInternally, this`currentRegister
      ensures r.None? <==> forall j :: i <= j < NoOfRegs ==> !IsFree(RegName(j))
      ensures r.Some? ==> i <= r.value < NoOfRegs && IsFree(RegName(r.value))
      ensures r.Some? ==> forall j :: i <= j < r.value ==> !IsFree(RegName(j))
      decreases NoOfRegs - i
    {
      if i >= NoOfRegs then None
      else if IsFree(RegName(i)) then Some(i)
      else LowestFreeFrom(i + 1)
    }

    /** The lowest free register index, if any. */
    function LowestFree(): (r: Option<nat>)
      reads this`nameToRegister, this`registersInUseInternally, this`currentRegister
      ensures r.None? <==> forall j :: 0 <= j < NoOfRegs ==> !IsFree(RegName(j))
      ensures r.Some? ==> r.value < NoOfRegs && IsFree(RegName(r.value))
      ensures r.Some? ==> forall j :: 0 <= j < r.value ==> !IsFree(RegName(j))
    {
      LowestFreeFrom(0)
    }

    /** The register a name is given: its own when it is mapped, otherwise
        the lowest free one; none when it is unmapped and all are taken. */
    function RegisterFor(name: string): (r: Option<string>)
      reads this`nameToRegister, this`registersInUseInternally, this`currentRegister
      ensures IsMapped(name) ==> r == Some(nameToRegister[name])
      ensures !IsMapped(name) ==> (r.None? <==> forall j :: 0 <= j < NoOfRegs ==> !IsFree(RegName(j)))
      ensures !IsMapped(name) && r.Some? ==> IsFree(r.value) && r.value !in nameToRegister.Values
    {
      if IsMapped(name) then Some(nameToRegister[name])
      else match LowestFree()
        case Some(i) => Some(RegName(i))
        case None => None
    }

    /** `add_instruction`: append one line, change nothing else. */
    method AddInstruction(instr: string)
      modifies this
      ensures asm == old(asm) + [Line(instr)]
      ensures nameToRegister == old(nameToRegister) && stack == old(stack)
      ensures registersInUseInternally == old(registersInUseInternally) && currentRegister == old(currentRegister)
    {
      asm := asm + [Line(instr)];
    }

    /** `get_free_reg`: the lowest of the thirteen registers that is free,
        or the exception when none is. It changes nothing. */
    method GetFreeReg() returns (r: Result<string>)
      ensures r.Ok? <==> LowestFree().Some?
      ensures r.Ok? ==> r.value == RegName(LowestFree().value)
      ensures r.Err? ==> r.error == NoFreeRegisters
    {
      var i := 0;
      while i < NoOfRegs
        invariant i <= NoOfRegs
        invariant LowestFree() == LowestFreeFrom(i)
      {
        var reg := RegName(i);
        if IsFree(reg) {
          assert LowestFreeFrom(i) == Some(i);
          return Ok(reg);
        }
        assert LowestFreeFrom(i) == LowestFreeFrom(i + 1);
        i := i + 1;
      }
      assert LowestFreeFrom(i) == None;
      return Err(NoFreeRegisters);
    }

    /** `if not name_to_register.get(name)`: allocate the lowest free register
        for an unmapped name; a mapped name keeps its register. */
    method EnsureRegister(name: string) returns (r: Result<string>)
      modifies this
      ensures r.Ok? <==> old(RegisterFor(name)).Some?
      ensures r.Ok? ==> r.value == old(RegisterFor(name)).value && nameToRegister == old(nameToRegister)[name := r.value]
      ensures r.Err? ==> r.error == NoFreeRegisters && nameToRegister == old(nameToRegister)
      ensures old(IsMapped(name)) ==> nameToRegister == old(nameToRegister)
      ensures asm == old(asm) && stack == old(stack)
      ensures registersInUseInternally == old(registersInUseInternally) && currentRegister == old(currentRegister)
    {
      if !IsMapped(name) {
        var reg := GetFreeReg();
        if reg.Err? {
          return reg;
        }
        nameToRegister := nameToRegister[name := reg.value];
      }
      return Ok(nameToRegister[name]);
    }

    /** `handle_condition`: for a comparison operator and a stack length of
        0 or 1, emit the conditional move of `value` into `name`'s register
        and answer true; otherwise answer false and change nothing. */
    method HandleCondition(op: Op, stackLength: int, name: string, value: Value) returns (r: Result<bool>)
      requires Valid()
      modifies this
      ensures Valid()
      ensures stack == old(stack) && currentRegister == old(currentRegister)
      ensures CondInstr(op, stackLength).None? ==>
                r == Ok(false) && asm == old(asm) && nameToRegister == old(nameToRegister)
      ensures CondInstr(op, stackLength).Some? && old(RegisterFor(name)).None? ==>
                r == Err(NoFreeRegisters) && asm == old(asm) && nameToRegister == old(nameToRegister)
      ensures CondInstr(op, stackLength).Some? && old(RegisterFor(name)).Some? ==>
                var reg := old(RegisterFor(name)).value;
                && r == Ok(true)
                && nameToRegister == old(nameToRegister)[name := reg]
                && asm == old(asm) + [Line(CondLine(CondInstr(op, stackLength).value, reg, value))]
    {
      var instr := CondInstr(op, stackLength);
      if instr.None? {
        return Ok(false);
      }
      var reg := EnsureRegister(name);
      if reg.Err? {
        return Err(reg.error);
      }
      AddInstruction(CondLine(instr.value, reg.value, value));
      return Ok(true);
    }

    /** The conditional move the top of the stack calls for once it is
        popped, if any. */
    function PendingCondition(): Option<string>
      reads this`stack
    {
      if stack == [] then None else CondInstr(stack[|stack| - 1], |stack| - 1)
    }

    /** `p_statement_assign` for `name = value`: reject an integer out of
        range before anything changes; inside a conditional, pop the stack
        and try the conditional move; otherwise move an integer into the
        name's register, or rebind the name to a register value. */
    method StatementAssign(name: string, value: Value) returns (r: Result<()>)
      requires Valid()
      modifies this
      ensures Valid()
      ensures currentRegister == old(currentRegister)
      ensures value.Int? && !InRange(value.n) ==> r == Err(IntegerTooBig) && unchanged(this)
      ensures (value.Reg? || InRange(value.n)) ==> stack == Popped(old(stack))
      ensures (value.Reg? || InRange(value.n)) && old(PendingCondition()).Some? ==>
                match old(RegisterFor(name))
                case None => r == Err(NoFreeRegisters) && asm == old(asm) && nameToRegister == old(nameToRegister)
                case Some(reg) =>
                  && r == Ok(())
                  && nameToRegister == old(nameToRegister)[name := reg]
                  && asm == old(asm) + [Line(CondLine(old(PendingCondition()).value, reg, value))]
      ensures (value.Reg? || InRange(value.n)) && old(PendingCondition()).None? ==>
                match value
                case Reg(register) =>
                  r == Ok(()) && asm == old(asm) && nameToRegister == old(nameToRegister)[name := register]
                case Int(n) =>
                  match old(RegisterFor(name))
                  case None => r == Err(NoFreeRegisters) && asm == old(asm) && nameToRegister == old(nameToRegister)
                  case Some(reg) =>
                    && r == Ok(())
                    && nameToRegister == old(nameToRegister)[name := reg]
                    && asm == old(asm) + [Line(MovLine(reg, n))]
    {
      if value.Int? && (value.n > 255 || value.n < -255) {
        return Err(IntegerTooBig);
      }
      var handled := PopCondition(name, value);
      if handled.Err? {
        return Err(handled.error);
      }
      if handled.value {
        return Ok(());
      }
      r := AssignValue(name, value);
    }

    /** Lines 126-128 of `p_statement_assign`: inside a conditional, pop the
        stack and try the conditional move for the length that is left. */
    method PopCondition(name: string, value: Value) returns (r: Result<bool>)
      requires Valid()
      modifies this
      ensures Valid()
      ensures stack == Popped(old(stack))
      ensures currentRegister == old(currentRegister) && registersInUseInternally == old(registersInUseInternally)
      ensures old(PendingCondition()).None? ==>
                r == Ok(false) && asm == old(asm) && nameToRegister == old(nameToRegister)
      ensures old(PendingCondition()).Some? && old(RegisterFor(name)).None? ==>
                r == Err(NoFreeRegisters) && asm == old(asm) && nameToRegister == old(nameToRegister)
      ensures old(PendingCondition()).Some? && old(RegisterFor(name)).Some? ==>
                var reg := old(RegisterFor(name)).value;
                && r == Ok(true)
                && nameToRegister == old(nameToRegister)[name := reg]
                && asm == old(asm) + [Line(CondLine(old(PendingCondition()).value, reg, value))]
    {
      if |stack| == 0 {
        return Ok(false);
      }
      var op := stack[|stack| - 1];
      stack := stack[..|stack| - 1];
      r := HandleCondition(op, |stack|, name, value);
    }

    /** Lines 130-137 of `p_statement_assign`, outside a conditional: move an
        integer into the name's register (allocating one for an unmapped
        name), or rebind the name to a register value without emitting. */
    method AssignValue(name: string, value: Value) returns (r: Result<()>)
      requires Valid()
      modifies this
      ensures Valid()
      ensures stack == old(stack) && currentRegister == old(currentRegister)
      ensures value.Reg? ==>
                r == Ok(()) && asm == old(asm) && nameToRegister == old(nameToRegister)[name := value.name]
      ensures value.Int? && old(RegisterFor(name)).None? ==>
                r == Err(NoFreeRegisters) && asm == old(asm) && nameToRegister == old(nameToRegister)
      ensures value.Int? && old(RegisterFor(name)).Some? ==>
                var reg := old(RegisterFor(name)).value;
                && r == Ok(())
                && nameToRegister == old(nameToRegister)[name := reg]
                && asm == old(asm) + [Line(MovLine(reg, value.n))]
    {
      if value.Int? {
        var reg := EnsureRegister(name);
        if reg.Err? {
          return Err(reg.error);
        }
        AddInstruction(MovLine(reg.value, value.n));
      } else {
        nameToRegister := nameToRegister[name := value.name];
      }
      return Ok(());
    }

    /** Lines 152-154 of `p_expression_math`: push the lowest free register on
        the internal list and pop it into the current register. */
    method TakeFreeRegister() returns (r: Result<string>)
      requires Valid()
      modifies this
      ensures Valid()
      ensures old(LowestFree()).None? ==> r == Err(NoFreeRegisters) && unchanged(this)
      ensures old(LowestFree()).Some? ==>
                && r == Ok(RegName(old(LowestFree()).value))
                && currentRegister == r.value
      ensures asm == old(asm) && stack == old(stack) && nameToRegister == old(nameToRegister)
      ensures registersInUseInternally == old(registersInUseInternally)
    {
      r := GetFreeReg();
      if r.Ok? {
        var inUse := registersInUseInternally + [r.value];
        currentRegister := inUse[|inUse| - 1];
        registersInUseInternally := inUse[..|inUse| - 1];
      }
    }

    /** `p_expression_math` for `left op right`. An arithmetic operator first
        takes the lowest free register as the current one; then both operands
        must be registers. Arithmetic emits its instructions into the current
        register; a comparison emits `CMP` and stacks the operator twice, once
        for each branch of the conditional that follows. The value is the
        current register. */
    method ExpressionMath(op: Op, left: Value, right: Value) returns (r: Result<Value>)
      requires Valid()
      modifies this
      ensures Valid()
      ensures nameToRegister == old(nameToRegister)
      ensures !IsComparison(op) && old(LowestFree()).None? ==>
                r == Err(NoFreeRegisters) && unchanged(this)
      ensures !IsComparison(op) && old(LowestFree()).Some? ==>
                && currentRegister == RegName(old(LowestFree()).value)
                && stack == old(stack)
                && if left.Reg? && right.Reg?
                   then r == Ok(Reg(currentRegister)) &&
                        asm == old(asm) + Lines(MathInstructions(op, currentRegister, left.name, right.name))
                   else r == Err(OperandNotRegister) && asm == old(asm)
      ensures IsComparison(op) ==>
                && currentRegister == old(currentRegister)
                && if left.Reg? && right.Reg?
                   then && r == Ok(Reg(currentRegister))
                        && stack == old(stack) + [op, op]
                        && asm == old(asm) + Lines(MathInstructions(op, currentRegister, left.name, right.name))
                   else r == Err(OperandNotRegister) && asm == old(asm) && stack == old(stack)
    {
      if !IsComparison(op) {
        var reg := TakeFreeRegister();
        if reg.Err? {
          return Err(reg.error);
        }
      }
      if left.Int? || right.Int? {
        return Err(OperandNotRegister);
      }
      EmitMath(op, left.name, right.name);
      return Ok(Reg(currentRegister));
    }

    /** Lines 163-195 of `p_expression_math`: emit the instructions for
        `a op b` into the current register, and stack a comparison operator
        once for each branch of the conditional that follows. */
    method EmitMath(op: Op, a: string, b: string)
      requires Valid()
      modifies this
      ensures Valid()
      ensures asm == old(asm) + Lines(MathInstructions(op, currentRegister, a, b))
      ensures stack == if IsComparison(op) then old(stack) + [op, op] else old(stack)
      ensures nameToRegister == old(nameToRegister) && currentRegister == old(currentRegister)
    {
      var instrs := MathInstructions(op, currentRegister, a, b);
      if IsComparison(op) {
        stack := stack + [op, op];
      }
      AddInstruction(instrs[0]);
      if op == Mod {
        AddInstruction(instrs[1]);
      }
    }

    /** `p_expression_name`: the register a name is bound to; an unbound
        name raises. */
    function ExpressionName(name: string): (r: Result<Value>)
      reads this
      ensures r.Ok? <==> name in nameToRegister
      ensures r.Ok? ==> r.value == Reg(nameToRegister[name])
      ensures r.Err? ==> r.error == UndefinedName(name)
    {
      if name in nameToRegister then Ok(Reg(nameToRegister[name])) else Err(UndefinedName(name))
    }
  }

  /** `p_expression_parenthesis`: a parenthesised expression has its inner value. */
  function ExpressionParenthesis(inner: Value): Value
  {
    inner
  }

  /** `p_expression_number`: a number literal is its integer. */
  function ExpressionNumber(n: int): Value
  {
    Int(n)
  }
}
