/** Flattening nested if/elseif/else into one list of conditions per package
    (scripts/sbom/logsquirl_sbom.py, parse_cpm_packages). */
module CMakeConditions {
  import opened Texts
  import opened CMakeCommands

  // ---------- The code ----------

  datatype Kind = IfKind | ElseIfKind | ElseKind | EndIfKind | PackageKind | OtherKind

  function KindOf(cmd: Command): Kind {
    var lname := Lower(cmd.name);
    if lname == "if" then IfKind
    else if lname == "elseif" then ElseIfKind
    else if lname == "else" then ElseKind
    else if lname == "endif" then EndIfKind
    else if lname == "cpmaddpackage" then PackageKind
    else OtherKind
  }

  function Values(args: seq<Arg>): seq<string> {
    seq(|args|, i requires 0 <= i < |args| => args[i].value)
  }

  function JoinCondition(args: seq<Arg>): string {
    ReplaceAll(ReplaceAll(Join(Values(args), " "), " )", ")"), "( ", "(")
  }

  function Negate(cond: string): string {
    if "NOT " <= cond && ' ' !in cond[4..] then cond[4..]
    else if ' ' !in cond then "NOT " + cond
    else "NOT (" + cond + ")"
  }

  /** One frame per open if(): the conditions of its earlier branches and of the current one. */
  datatype Frame = Frame(previous: seq<string>, cond: string)

  function FrameConditions(f: Frame): seq<string> {
    seq(|f.previous|, i requires 0 <= i < |f.previous| => Negate(f.previous[i]))
      + (if f.cond != "" then [f.cond] else [])
  }

  function CurrentConditions(stack: seq<Frame>): seq<string> {
    if stack == [] then [] else FrameConditions(stack[0]) + CurrentConditions(stack[1..])
  }

  datatype Package = Package(cmd: Command, conditions: seq<string>)

  datatype Error = WithoutIf(cmd: Command) | UnterminatedIf

  datatype Result<+T> = Ok(value: T) | Err(error: Error)

  datatype State = State(stack: seq<Frame>, packages: seq<Package>)

  function Step(s: State, cmd: Command): Result<State> {
    match KindOf(cmd)
    case IfKind => Ok(s.(stack := s.stack + [Frame([], JoinCondition(cmd.args))]))
    case ElseIfKind =>
      if s.stack == [] then Err(WithoutIf(cmd)) else
      Ok(s.(stack := NextBranch(s.stack, JoinCondition(cmd.args))))
    case ElseKind =>
      if s.stack == [] then Err(WithoutIf(cmd)) else Ok(s.(stack := NextBranch(s.stack, "")))
    case EndIfKind =>
      if s.stack == [] then Err(WithoutIf(cmd)) else Ok(s.(stack := s.stack[..|s.stack| - 1]))
    case PackageKind => Ok(s.(packages := s.packages + [Package(cmd, CurrentConditions(s.stack))]))
    case OtherKind => Ok(s)
  }

  function NextBranch(stack: seq<Frame>, cond: string): seq<Frame>
    requires stack != []
  {
    var top := stack[|stack| - 1];
    stack[..|stack| - 1] + [Frame(top.previous + [top.cond], cond)]
  }

  function Run(s: State, cmds: seq<Command>): Result<State>
    decreases |cmds|
  {
    if cmds == [] then Ok(s)
    else
      var r := Step(s, cmds[0]);
      if r.Err? then r else Run(r.value, cmds[1..])
  }

  function Packages(cmds: seq<Command>): Result<seq<Package>> {
    var r := Run(State([], []), cmds);
    if r.Err? then Err(r.error)
    else if r.value.stack != [] then Err(UnterminatedIf)
    else Ok(r.value.packages)
  }

  /** The loop of the code, one stack pushed and popped. */
  method ParsePackages(cmds: seq<Command>) returns (r: Result<seq<Package>>)
    ensures r == Packages(cmds)
  {
    var packages: seq<Package>, stack: seq<Frame> := [], [];
    for i := 0 to |cmds|
      invariant Run(State([], []), cmds) == Run(State(stack, packages), cmds[i..])
    {
      var cmd := cmds[i];
      assert cmds[i..][1..] == cmds[i + 1..];
      match KindOf(cmd) {
        case IfKind =>
          stack := stack + [Frame([], JoinCondition(cmd.args))];
        case ElseIfKind =>
          if stack == [] { return Err(WithoutIf(cmd)); }
          var top := stack[|stack| - 1];
          stack := stack[..|stack| - 1] + [Frame(top.previous + [top.cond], JoinCondition(cmd.args))];
        case ElseKind =>
          if stack == [] { return Err(WithoutIf(cmd)); }
          var top := stack[|stack| - 1];
          stack := stack[..|stack| - 1] + [Frame(top.previous + [top.cond], "")];
        case EndIfKind =>
          if stack == [] { return Err(WithoutIf(cmd)); }
          stack := stack[..|stack| - 1];
        case PackageKind =>
          packages := packages + [Package(cmd, CurrentConditions(stack))];
        case OtherKind =>
      }
    }
    return if stack != [] then Err(UnterminatedIf) else Ok(packages);
  }

  // ---------- The nested reading of a file ----------

  datatype Blocks = Nil | Cons(head: Block, tail: Blocks)
  datatype Block = Plain(cmd: Command) | Conditional(cmd: Command, body: Blocks, rest: Branches)
  datatype Branches =
    | End(cmd: Command)
    | ElseIf(cmd: Command, body: Blocks, rest: Branches)
    | Else(cmd: Command, body: Blocks, endCmd: Command)

  predicate WellFormed(bs: Blocks) {
    bs.Cons? ==> WellFormedBlock(bs.head) && WellFormed(bs.tail)
  }

  predicate WellFormedBlock(b: Block) {
    match b
    case Plain(cmd) => KindOf(cmd) in {PackageKind, OtherKind}
    case Conditional(cmd, body, rest) => KindOf(cmd) == IfKind && WellFormed(body) && WellFormedBranches(rest)
  }

  predicate WellFormedBranches(r: Branches) {
    match r
    case End(cmd) => KindOf(cmd) == EndIfKind
    case ElseIf(cmd, body, rest) => KindOf(cmd) == ElseIfKind && WellFormed(body) && WellFormedBranches(rest)
    case Else(cmd, body, endCmd) => KindOf(cmd) == ElseKind && WellFormed(body) && KindOf(endCmd) == EndIfKind
  }

  /** The commands of the structure, in the order they are written. */
  function Emit(bs: Blocks): seq<Command> {
    match bs
    case Nil => []
    case Cons(b, tail) => EmitBlock(b) + Emit(tail)
  }

  function EmitBlock(b: Block): seq<Command> {
    match b
    case Plain(cmd) => [cmd]
    case Conditional(cmd, body, rest) => [cmd] + Emit(body) + EmitBranches(rest)
  }

  function EmitBranches(r: Branches): seq<Command> {
    match r
    case End(cmd) => [cmd]
    case ElseIf(cmd, body, rest) => [cmd] + Emit(body) + EmitBranches(rest)
    case Else(cmd, body, endCmd) => [cmd] + Emit(body) + [endCmd]
  }

  /** A truth assignment to condition texts that reads NOT the way CMake does. */
  type Valuation = string -> bool

  ghost predicate RespectsNot(v: Valuation) {
    && (forall c: string :: ' ' !in c ==> v("NOT " + c) == !v(c))
    && (forall c: string :: ' ' in c ==> v("NOT (" + c + ")") == !v(c))
  }

  /** For each package, in order, whether running the structure gets to it. `active`: whether
      it gets to this part at all; `taken`: whether an earlier branch of the same if was run. */
  function Reached(bs: Blocks, v: Valuation, active: bool): seq<bool> {
    match bs
    case Nil => []
    case Cons(b, tail) => ReachedBlock(b, v, active) + Reached(tail, v, active)
  }

  function ReachedBlock(b: Block, v: Valuation, active: bool): seq<bool> {
    match b
    case Plain(cmd) => if KindOf(cmd) == PackageKind then [active] else []
    case Conditional(cmd, body, rest) =>
      var holds := v(JoinCondition(cmd.args));
      Reached(body, v, active && holds) + ReachedBranches(rest, v, active, holds)
  }

  function ReachedBranches(r: Branches, v: Valuation, active: bool, taken: bool): seq<bool> {
    match r
    case End(cmd) => []
    case ElseIf(cmd, body, rest) =>
      var holds := v(JoinCondition(cmd.args));
      Reached(body, v, active && !taken && holds) + ReachedBranches(rest, v, active, taken || holds)
    case Else(cmd, body, endCmd) => Reached(body, v, active && !taken)
  }

  /** For each package, in order, whether the if() or elseif() of some branch it is in has an
      empty condition text, as `if("")` has. */
  function UnderEmpty(bs: Blocks, under: bool): seq<bool> {
    match bs
    case Nil => []
    case Cons(b, tail) => UnderEmptyBlock(b, under) + UnderEmpty(tail, under)
  }

  function UnderEmptyBlock(b: Block, under: bool): seq<bool> {
    match b
    case Plain(cmd) => if KindOf(cmd) == PackageKind then [under] else []
    case Conditional(cmd, body, rest) =>
      UnderEmpty(body, under || JoinCondition(cmd.args) == "") + UnderEmptyBranches(rest, under)
  }

  function UnderEmptyBranches(r: Branches, under: bool): seq<bool> {
    match r
    case End(_) => []
    case ElseIf(cmd, body, rest) =>
      UnderEmpty(body, under || JoinCondition(cmd.args) == "") + UnderEmptyBranches(rest, under)
    case Else(_, body, _) => UnderEmpty(body, under)
  }

  // ---------- Meaning preserved ----------

  ghost predicate AllHold(conds: seq<string>, v: Valuation) {
    forall c :: c in conds ==> v(c)
  }

  lemma NegateMeansNot(v: Valuation, cond: string)
    requires RespectsNot(v)
    ensures v(Negate(cond)) == !v(cond)
  {
    if "NOT " <= cond && ' ' !in cond[4..] { assert cond == "NOT " + cond[4..]; }
  }

  /** Every truth assignment to texts that are no negation extends to one that respects NOT. */
  lemma EveryAssignmentExtends(base: Valuation) returns (v: Valuation)
    ensures RespectsNot(v)
    ensures forall s: string :: !("NOT " <= s) ==> v(s) == base(s)
  {
    v := (s: string) => Extended(base, s);
    forall c: string | ' ' in c ensures v("NOT (" + c + ")") == !v(c) {
      var s := "NOT (" + c + ")";
      assert s[4..] == "(" + c + ")";
      assert ' ' in s[4..] by { var k :| 0 <= k < |c| && c[k] == ' '; assert s[4..][k + 1] == ' '; }
      assert s[5..|s| - 1] == c;
    }
    forall c: string | ' ' !in c ensures v("NOT " + c) == !v(c) { assert ("NOT " + c)[4..] == c; }
  }

  predicate Extended(base: Valuation, s: string)
    decreases |s|
  {
    if !("NOT " <= s) then base(s)
    else if ' ' !in s[4..] then !Extended(base, s[4..])
    else if s[4] == '(' && s[|s| - 1] == ')' && |s| > 5 then !Extended(base, s[5..|s| - 1])
    else base(s)
  }

  /** The flattening, read off the structure: what each package is recorded with inside `conds`. */
  function Flat(bs: Blocks, conds: seq<string>): seq<Package> {
    match bs
    case Nil => []
    case Cons(b, tail) => FlatBlock(b, conds) + Flat(tail, conds)
  }

  function FlatBlock(b: Block, conds: seq<string>): seq<Package> {
    match b
    case Plain(cmd) => if KindOf(cmd) == PackageKind then [Package(cmd, conds)] else []
    case Conditional(cmd, body, rest) =>
      var cond := JoinCondition(cmd.args);
      Flat(body, conds + FrameConditions(Frame([], cond))) + FlatBranches(rest, conds, [cond])
  }

  function FlatBranches(r: Branches, conds: seq<string>, previous: seq<string>): seq<Package> {
    match r
    case End(cmd) => []
    case ElseIf(cmd, body, rest) =>
      var cond := JoinCondition(cmd.args);
      Flat(body, conds + FrameConditions(Frame(previous, cond))) + FlatBranches(rest, conds, previous + [cond])
    case Else(cmd, body, endCmd) => Flat(body, conds + FrameConditions(Frame(previous, "")))
  }

  lemma {:induction false} RunAppend(s: State, a: seq<Command>, b: seq<Command>)
    ensures var r := Run(s, a); Run(s, a + b) == if r.Err? then r else Run(r.value, b)
    decreases |a|
  {
    if a == [] {
      assert a + b == b;
    } else {
      var r := Step(s, a[0]);
      assert (a + b)[1..] == a[1..] + b;
      if r.Ok? { RunAppend(r.value, a[1..], b); }
    }
  }

  lemma {:induction false} ConditionsOfPush(stack: seq<Frame>, f: Frame)
    ensures CurrentConditions(stack + [f]) == CurrentConditions(stack) + FrameConditions(f)
  {
    if stack == [] {
      assert stack + [f] == [f] && [f][1..] == [];
    } else {
      ConditionsOfPush(stack[1..], f);
      assert (stack + [f])[1..] == stack[1..] + [f];
    }
  }

  /** The stack machine records exactly the flattening, and leaves the stack as it found it. */
  lemma {:induction false} RunFlat(bs: Blocks, s: State)
    requires WellFormed(bs)
    ensures Run(s, Emit(bs)) == Ok(State(s.stack, s.packages + Flat(bs, CurrentConditions(s.stack))))
    decreases bs
  {
    hide KindOf, JoinCondition, Negate;
    var conds := CurrentConditions(s.stack);
    match bs {
      case Nil => assert s.packages + [] == s.packages;
      case Cons(b, tail) =>
        var s' := State(s.stack, s.packages + FlatBlock(b, conds));
        RunFlatBlock(b, s);
        RunFlat(tail, s');
        RunAppend(s, EmitBlock(b), Emit(tail));
        assert s'.packages + Flat(tail, conds) == s.packages + Flat(bs, conds);
    }
  }

  lemma {:induction false} RunFlatBlock(b: Block, s: State)
    requires WellFormedBlock(b)
    ensures Run(s, EmitBlock(b)) == Ok(State(s.stack, s.packages + FlatBlock(b, CurrentConditions(s.stack))))
    decreases b
  {
    hide KindOf, JoinCondition, Negate, Run, FrameConditions;
    var conds := CurrentConditions(s.stack);
    RunOne(s, b.cmd);
    match b {
      case Plain(cmd) =>
        assert s.packages + [] == s.packages;
      case Conditional(cmd, body, rest) =>
        var f := Frame([], JoinCondition(cmd.args));
        var inside, after := Flat(body, conds + FrameConditions(f)), FlatBranches(rest, conds, [f.cond]);
        var s1 := s.(stack := s.stack + [f]);
        var s2 := s1.(packages := s.packages + inside);
        ConditionsOfPush(s.stack, f);
        RunFlat(body, s1);
        assert [] + [f.cond] == [f.cond];
        RunFlatBranches(rest, s2, s.stack, f);
        RunThree(s, [cmd], s1, Emit(body), s2, EmitBranches(rest));
        assert s.packages + inside + after == s.packages + (inside + after);
    }
  }

  lemma RunOne(s: State, cmd: Command)
    ensures Run(s, [cmd]) == Step(s, cmd)
  {
    assert [cmd][1..] == [];
  }

  lemma RunThree(s: State, a: seq<Command>, s1: State, b: seq<Command>, s2: State, c: seq<Command>)
    requires Run(s, a) == Ok(s1) && Run(s1, b) == Ok(s2)
    ensures Run(s, a + b + c) == Run(s2, c)
  {
    hide Run;
    RunAppend(s, a, b);
    RunAppend(s, a + b, c);
  }

  lemma {:induction false} RunFlatBranches(r: Branches, s: State, below: seq<Frame>, top: Frame)
    requires WellFormedBranches(r) && s.stack == below + [top]
    ensures Run(s, EmitBranches(r))
         == Ok(State(below, s.packages + FlatBranches(r, CurrentConditions(below), top.previous + [top.cond])))
    decreases r
  {
    hide KindOf, JoinCondition, Negate, Run, FrameConditions;
    var conds, previous := CurrentConditions(below), top.previous + [top.cond];
    assert s.stack[..|s.stack| - 1] == below;
    RunOne(s, r.cmd);
    match r {
      case End(cmd) => assert s.packages + [] == s.packages;
      case ElseIf(cmd, body, rest) =>
        var f := Frame(previous, JoinCondition(cmd.args));
        var inside, after := Flat(body, conds + FrameConditions(f)), FlatBranches(rest, conds, previous + [f.cond]);
        var s1 := s.(stack := below + [f]);
        var s2 := s1.(packages := s.packages + inside);
        ConditionsOfPush(below, f);
        RunFlat(body, s1);
        RunFlatBranches(rest, s2, below, f);
        RunThree(s, [cmd], s1, Emit(body), s2, EmitBranches(rest));
        assert s.packages + inside + after == s.packages + (inside + after);
      case Else(cmd, body, endCmd) =>
        var f := Frame(previous, "");
        var s1 := s.(stack := below + [f]);
        var s2 := s1.(packages := s.packages + Flat(body, conds + FrameConditions(f)));
        ConditionsOfPush(below, f);
        RunFlat(body, s1);
        RunOne(s2, endCmd);
        assert s2.stack[..|s2.stack| - 1] == below;
        RunThree(s, [cmd], s1, Emit(body), s2, [endCmd]);
    }
  }

  /** Package by package: it is reached exactly when all that was recorded holds and, under an
      empty condition text, that text holds as well. */
  ghost predicate Agree(recorded: seq<Package>, reached: seq<bool>, under: seq<bool>, v: Valuation) {
    && |recorded| == |reached| == |under|
    && forall i :: 0 <= i < |reached| ==>
         (reached[i] <==> AllHold(recorded[i].conditions, v) && (under[i] ==> v("")))
  }

  lemma AgreeAppend(a: seq<Package>, ra: seq<bool>, ua: seq<bool>, b: seq<Package>, rb: seq<bool>, ub: seq<bool>,
                    v: Valuation)
    requires Agree(a, ra, ua, v) && Agree(b, rb, ub, v)
    ensures Agree(a + b, ra + rb, ua + ub, v)
  {
  }

  /** Inside a branch: its condition and the negations of the ones before. `empty`: its own text
      is empty, which that of an else() is not. */
  lemma BranchConditions(v: Valuation, conds: seq<string>, previous: seq<string>, cond: string, empty: bool,
                         active: bool, under: bool, taken: bool, holds: bool)
    requires RespectsNot(v)
    requires active <==> AllHold(conds, v) && (under ==> v(""))
    requires taken <==> exists p :: p in previous && v(p)
    requires cond != "" ==> (holds <==> v(cond)) && !empty
    requires cond == "" ==> (holds <==> (empty ==> v("")))
    ensures active && !taken && holds <==>
            AllHold(conds + FrameConditions(Frame(previous, cond)), v) && (under || empty ==> v(""))
  {
    var own := FrameConditions(Frame(previous, cond));
    OwnConditions(v, previous, cond);
    assert AllHold(conds + own, v) <==> AllHold(conds, v) && AllHold(own, v) by {
      forall c ensures c in conds + own <==> c in conds || c in own {}
    }
  }

  lemma OwnConditions(v: Valuation, previous: seq<string>, cond: string)
    requires RespectsNot(v)
    ensures AllHold(FrameConditions(Frame(previous, cond)), v)
       <==> (forall p :: p in previous ==> !v(p)) && (cond != "" ==> v(cond))
  {
    hide Negate, RespectsNot;
    var own := FrameConditions(Frame(previous, cond));
    forall i | 0 <= i < |previous| ensures v(own[i]) == !v(previous[i]) && own[i] in own {
      NegateMeansNot(v, previous[i]);
    }
    assert cond != "" ==> own[|own| - 1] == cond;
    if AllHold(own, v) {
      forall p | p in previous ensures !v(p) {
        var k :| 0 <= k < |previous| && previous[k] == p;
        assert own[k] in own;
      }
    }
    if (forall p :: p in previous ==> !v(p)) && (cond != "" ==> v(cond)) {
      forall c | c in own ensures v(c) {
        var k :| 0 <= k < |own| && own[k] == c;
        if k < |previous| { assert previous[k] in previous; }
      }
    }
  }

  lemma {:induction false} FlatAgrees(bs: Blocks, conds: seq<string>, v: Valuation, active: bool, under: bool)
    requires RespectsNot(v)
    requires active <==> AllHold(conds, v) && (under ==> v(""))
    ensures Agree(Flat(bs, conds), Reached(bs, v, active), UnderEmpty(bs, under), v)
    decreases bs
  {
    hide KindOf, JoinCondition, Negate, Agree, AllHold, RespectsNot;
    match bs {
      case Nil =>
        NothingAgrees(v);
      case Cons(b, tail) =>
        BlockAgrees(b, conds, v, active, under);
        FlatAgrees(tail, conds, v, active, under);
        AgreeAppend(FlatBlock(b, conds), ReachedBlock(b, v, active), UnderEmptyBlock(b, under),
                    Flat(tail, conds), Reached(tail, v, active), UnderEmpty(tail, under), v);
    }
  }

  lemma NothingAgrees(v: Valuation)
    ensures Agree([], [], [], v)
  {
  }

  lemma {:induction false} BlockAgrees(b: Block, conds: seq<string>, v: Valuation, active: bool, under: bool)
    requires RespectsNot(v)
    requires active <==> AllHold(conds, v) && (under ==> v(""))
    ensures Agree(FlatBlock(b, conds), ReachedBlock(b, v, active), UnderEmptyBlock(b, under), v)
    decreases b
  {
    hide KindOf, JoinCondition, Negate, AllHold, RespectsNot;
    match b {
      case Plain(cmd) =>
      case Conditional(cmd, body, rest) =>
        var cond := JoinCondition(cmd.args);
        var holds, inner, below := v(cond), conds + FrameConditions(Frame([], cond)), under || cond == "";
        BranchConditions(v, conds, [], cond, cond == "", active, under, false, holds);
        FlatAgrees(body, inner, v, active && holds, below);
        BranchesAgree(rest, conds, [cond], v, active, under, holds);
        AgreeAppend(Flat(body, inner), Reached(body, v, active && holds), UnderEmpty(body, below),
                    FlatBranches(rest, conds, [cond]), ReachedBranches(rest, v, active, holds),
                    UnderEmptyBranches(rest, under), v);
    }
  }

  lemma {:induction false} BranchesAgree(r: Branches, conds: seq<string>, previous: seq<string>, v: Valuation,
                                         active: bool, under: bool, taken: bool)
    requires RespectsNot(v)
    requires active <==> AllHold(conds, v) && (under ==> v(""))
    requires taken <==> exists p :: p in previous && v(p)
    ensures Agree(FlatBranches(r, conds, previous), ReachedBranches(r, v, active, taken),
                  UnderEmptyBranches(r, under), v)
    decreases r
  {
    hide KindOf, JoinCondition, Negate, AllHold, RespectsNot;
    match r {
      case End(_) =>
      case ElseIf(cmd, body, rest) =>
        var cond := JoinCondition(cmd.args);
        var holds, inner, below := v(cond), conds + FrameConditions(Frame(previous, cond)), under || cond == "";
        BranchConditions(v, conds, previous, cond, cond == "", active, under, taken, holds);
        FlatAgrees(body, inner, v, active && !taken && holds, below);
        BranchesAgree(rest, conds, previous + [cond], v, active, under, taken || holds);
        AgreeAppend(Flat(body, inner), Reached(body, v, active && !taken && holds), UnderEmpty(body, below),
                    FlatBranches(rest, conds, previous + [cond]), ReachedBranches(rest, v, active, taken || holds),
                    UnderEmptyBranches(rest, under), v);
      case Else(cmd, body, endCmd) =>
        BranchConditions(v, conds, previous, "", false, active, under, taken, true);
        FlatAgrees(body, conds + FrameConditions(Frame(previous, "")), v, active && !taken, under);
    }
  }

  /** Flattening preserves meaning: for every structure and every truth assignment the code
      accepts the file, and each package is reached exactly when all its recorded conditions
      hold and, in a branch with an empty condition text, the empty text holds too. */
  lemma FlatteningPreservesMeaning(bs: Blocks, v: Valuation)
    requires WellFormed(bs) && RespectsNot(v)
    ensures Packages(Emit(bs)).Ok?
    ensures Agree(Packages(Emit(bs)).value, Reached(bs, v, true), UnderEmpty(bs, false), v)
  {
    RunFlat(bs, State([], []));
    assert [] + Flat(bs, []) == Flat(bs, []);
    FlatAgrees(bs, [], v, true, false);
  }

  /** What was recorded of a package is right. */
  ghost predicate RecordedRight(bs: Blocks, i: nat, v: Valuation) {
    && Packages(Emit(bs)).Ok? && i < |Packages(Emit(bs)).value| == |Reached(bs, v, true)|
    && (Reached(bs, v, true)[i] <==> AllHold(Packages(Emit(bs)).value[i].conditions, v))
  }

  /** A record is wrong exactly where it leaves an empty condition text out and nothing else
      keeps the package from being reached. */
  lemma RecordedRightIff(bs: Blocks, i: nat, v: Valuation)
    requires WellFormed(bs) && RespectsNot(v) && i < |Reached(bs, v, true)|
    ensures |UnderEmpty(bs, false)| == |Reached(bs, v, true)| && Packages(Emit(bs)).Ok?
    ensures |Packages(Emit(bs)).value| == |Reached(bs, v, true)|
    ensures RecordedRight(bs, i, v) <==>
            !(UnderEmpty(bs, false)[i] && !v("") && AllHold(Packages(Emit(bs)).value[i].conditions, v))
  {
    FlatteningPreservesMeaning(bs, v);
  }

  /** Around one package, the record is right for every truth assignment exactly when the text of
      its if() is not empty. */
  lemma EmptyConditionIsTheException(ifCmd: Command, package: Command, end: Command)
    requires KindOf(ifCmd) == IfKind && KindOf(package) == PackageKind && KindOf(end) == EndIfKind
    ensures var bs := Cons(Conditional(ifCmd, Cons(Plain(package), Nil), End(end)), Nil);
            (forall v: Valuation :: RespectsNot(v) ==> RecordedRight(bs, 0, v)) <==> JoinCondition(ifCmd.args) != ""
  {
    hide RespectsNot;
    var inner, cond := Cons(Plain(package), Nil), JoinCondition(ifCmd.args);
    var bs := Cons(Conditional(ifCmd, inner, End(end)), Nil);
    OnePackage(ifCmd, package, end);
    var never: Valuation := s => false;
    var v := EveryAssignmentExtends(never);
    assert !("NOT " <= "") && v("") == never("");
    RecordedRightIff(bs, 0, v);
    if cond != "" {
      forall v: Valuation | RespectsNot(v) ensures RecordedRight(bs, 0, v) { RecordedRightIff(bs, 0, v); }
    } else {
      assert AllHold(Packages(Emit(bs)).value[0].conditions, v);
    }
  }

  lemma OnePackage(ifCmd: Command, package: Command, end: Command)
    requires KindOf(ifCmd) == IfKind && KindOf(package) == PackageKind && KindOf(end) == EndIfKind
    ensures var cond := JoinCondition(ifCmd.args);
            var bs := Cons(Conditional(ifCmd, Cons(Plain(package), Nil), End(end)), Nil);
            && WellFormed(bs) && UnderEmpty(bs, false) == [cond == ""]
            && (forall v: Valuation :: Reached(bs, v, true) == [v(cond)])
            && Packages(Emit(bs)) == Ok([Package(package, if cond == "" then [] else [cond])])
  {
    hide JoinCondition, Negate;
    var inner, cond := Cons(Plain(package), Nil), JoinCondition(ifCmd.args);
    var block := Conditional(ifCmd, inner, End(end));
    var bs := Cons(block, Nil);
    assert WellFormed(Nil) && WellFormedBlock(inner.head) && WellFormed(inner) && WellFormedBlock(block);
    UnderEmptyOfOne(inner.head, cond == "");
    assert UnderEmptyBlock(inner.head, cond == "") == [cond == ""];
    assert UnderEmptyBranches(block.rest, false) == [] && [cond == ""] + [] == [cond == ""];
    UnderEmptyOfOne(block, false);
    forall v: Valuation ensures Reached(bs, v, true) == [v(cond)] {
      assert Reached(inner, v, true && v(cond)) == [v(cond)];
      assert ReachedBlock(block, v, true) == [v(cond)];
    }
    RunFlat(bs, State([], []));
    var conds := FrameConditions(Frame([], cond));
    assert [] + conds == conds == if cond == "" then [] else [cond];
    assert Flat(inner, conds) == [Package(package, conds)];
    assert FlatBlock(block, []) == [Package(package, conds)];
    assert [] + Flat(bs, []) == [Package(package, conds)];
  }

  lemma UnderEmptyOfOne(b: Block, under: bool)
    ensures UnderEmpty(Cons(b, Nil), under) == UnderEmptyBlock(b, under)
  {
    hide UnderEmptyBlock;
    assert UnderEmpty(Nil, under) == [];
  }

  function PackageCommands(cmds: seq<Command>): seq<Command> {
    if cmds == [] then []
    else (if KindOf(cmds[0]) == PackageKind then [cmds[0]] else []) + PackageCommands(cmds[1..])
  }

  function CommandsOf(packages: seq<Package>): seq<Command> {
    seq(|packages|, i requires 0 <= i < |packages| => packages[i].cmd)
  }

  /** The packages recorded are all there are, in the order of the file. */
  lemma EveryPackageIsRecorded(cmds: seq<Command>)
    ensures Packages(cmds).Ok? ==> CommandsOf(Packages(cmds).value) == PackageCommands(cmds)
  {
    RunRecords(State([], []), cmds);
  }

  lemma {:induction false} RunRecords(s: State, cmds: seq<Command>)
    ensures Run(s, cmds).Ok? ==>
              CommandsOf(Run(s, cmds).value.packages) == CommandsOf(s.packages) + PackageCommands(cmds)
    decreases |cmds|
  {
    hide CommandsOf, KindOf, JoinCondition, CurrentConditions;
    if cmds == [] {
      assert CommandsOf(s.packages) + [] == CommandsOf(s.packages);
    } else if Step(s, cmds[0]).Ok? {
      var next := Step(s, cmds[0]).value;
      StepRecords(s, cmds[0]);
      RunRecords(next, cmds[1..]);
      var own := if KindOf(cmds[0]) == PackageKind then [cmds[0]] else [];
      assert CommandsOf(s.packages) + own + PackageCommands(cmds[1..])
          == CommandsOf(s.packages) + (own + PackageCommands(cmds[1..]));
    }
  }

  lemma StepRecords(s: State, cmd: Command)
    requires Step(s, cmd).Ok?
    ensures CommandsOf(Step(s, cmd).value.packages)
         == CommandsOf(s.packages) + if KindOf(cmd) == PackageKind then [cmd] else []
  {
    hide KindOf, JoinCondition, CurrentConditions;
    assert CommandsOf(s.packages) + [] == CommandsOf(s.packages);
    var more := s.packages + [Package(cmd, CurrentConditions(s.stack))];
    assert CommandsOf(more) == CommandsOf(s.packages) + [cmd];
  }

  // ---------- Which files are accepted ----------

  function DepthChange(cmd: Command): int {
    match KindOf(cmd)
    case IfKind => 1
    case EndIfKind => -1
    case _ => 0
  }

  function Depth(cmds: seq<Command>): int {
    if cmds == [] then 0 else DepthChange(cmds[0]) + Depth(cmds[1..])
  }

  predicate NeedsIf(cmd: Command) { KindOf(cmd) in {ElseIfKind, ElseKind, EndIfKind} }

  /** Read from this depth on, every elseif(), else() and endif() is inside some if(). */
  ghost predicate InsideIfs(depth: int, cmds: seq<Command>) {
    forall k :: 0 <= k < |cmds| && NeedsIf(cmds[k]) ==> depth + Depth(cmds[..k]) >= 1
  }

  /** Every elseif(), else() and endif() is inside some if(), and every if() is closed. */
  ghost predicate Balanced(cmds: seq<Command>) { InsideIfs(0, cmds) && Depth(cmds) == 0 }

  lemma {:induction false} AcceptedIffBalanced(cmds: seq<Command>)
    ensures Packages(cmds).Ok? <==> Balanced(cmds)
  {
    RunFromDepth(State([], []), cmds);
  }

  lemma InsideIfsFirst(depth: int, cmds: seq<Command>)
    requires cmds != []
    ensures InsideIfs(depth, cmds) <==>
            (NeedsIf(cmds[0]) ==> depth >= 1) && InsideIfs(depth + DepthChange(cmds[0]), cmds[1..])
  {
    hide KindOf, NeedsIf, DepthChange;
    var rest := cmds[1..];
    forall k | 0 < k <= |cmds| ensures Depth(cmds[..k]) == DepthChange(cmds[0]) + Depth(rest[..k - 1]) {
      assert cmds[..k][1..] == rest[..k - 1];
    }
    assert cmds[..0] == [];
    if InsideIfs(depth, cmds) {
      assert cmds[0] == cmds[0];
      forall k | 0 <= k < |rest| && NeedsIf(rest[k]) ensures depth + DepthChange(cmds[0]) + Depth(rest[..k]) >= 1 {
        assert rest[k] == cmds[k + 1];
      }
    }
    if (NeedsIf(cmds[0]) ==> depth >= 1) && InsideIfs(depth + DepthChange(cmds[0]), rest) {
      forall k | 0 <= k < |cmds| && NeedsIf(cmds[k]) ensures depth + Depth(cmds[..k]) >= 1 {
        if k > 0 { assert cmds[k] == rest[k - 1]; }
      }
    }
  }

  lemma StepDepth(s: State, cmd: Command)
    ensures Step(s, cmd).Ok? <==> (NeedsIf(cmd) ==> |s.stack| >= 1)
    ensures Step(s, cmd).Ok? ==> |Step(s, cmd).value.stack| == |s.stack| + DepthChange(cmd)
  {
    hide KindOf, JoinCondition, Negate;
  }

  lemma {:induction false} RunFromDepth(s: State, cmds: seq<Command>)
    ensures Run(s, cmds).Ok? <==> InsideIfs(|s.stack|, cmds)
    ensures Run(s, cmds).Ok? ==> |Run(s, cmds).value.stack| == |s.stack| + Depth(cmds)
    decreases |cmds|
  {
    if cmds != [] {
      hide InsideIfs, Step, NeedsIf, DepthChange;
      StepDepth(s, cmds[0]);
      InsideIfsFirst(|s.stack|, cmds);
      if Step(s, cmds[0]).Ok? { RunFromDepth(Step(s, cmds[0]).value, cmds[1..]); }
    }
  }

  /** Balanced, and nothing but endif() after an else(). `open`: for each open if(), whether
      its else() came. */
  predicate Nested(cmds: seq<Command>, open: seq<bool>) {
    if cmds == [] then open == []
    else match KindOf(cmds[0])
      case IfKind => Nested(cmds[1..], open + [false])
      case ElseIfKind => open != [] && !open[|open| - 1] && Nested(cmds[1..], open)
      case ElseKind => open != [] && !open[|open| - 1] && Nested(cmds[1..], open[..|open| - 1] + [true])
      case EndIfKind => open != [] && Nested(cmds[1..], open[..|open| - 1])
      case _ => Nested(cmds[1..], open)
  }

  /** Every well-nested command list is the text of a structure, so the meaning above is
      defined for all of them. */
  lemma NestedIsStructured(cmds: seq<Command>)
    requires Nested(cmds, [])
    ensures exists bs :: WellFormed(bs) && Emit(bs) == cmds
  {
    var bs, rest := ReadBlocks(cmds, []);
    assert Emit(bs) + [] == Emit(bs);
  }

  lemma {:induction false} ReadBlocks(cmds: seq<Command>, open: seq<bool>) returns (bs: Blocks, rest: seq<Command>)
    requires Nested(cmds, open)
    ensures WellFormed(bs) && cmds == Emit(bs) + rest && Nested(rest, open)
    ensures rest == [] || NeedsIf(rest[0])
    decreases |cmds|, 1
  {
    hide KindOf, JoinCondition, Negate;
    if cmds == [] || NeedsIf(cmds[0]) { return Nil, cmds; }
    var head, after := ReadBlock(cmds, open);
    var tail;
    tail, rest := ReadBlocks(after, open);
    bs := Cons(head, tail);
  }

  lemma {:induction false} ReadBlock(cmds: seq<Command>, open: seq<bool>) returns (b: Block, rest: seq<Command>)
    requires Nested(cmds, open) && cmds != [] && !NeedsIf(cmds[0])
    ensures WellFormedBlock(b) && cmds == EmitBlock(b) + rest && Nested(rest, open) && |rest| < |cmds|
    decreases |cmds|, 0
  {
    hide KindOf, JoinCondition, Negate;
    if KindOf(cmds[0]) != IfKind { return Plain(cmds[0]), cmds[1..]; }
    var body, after := ReadBlocks(cmds[1..], open + [false]);
    var branches;
    branches, rest := ReadBranches(after, open, false);
    b := Conditional(cmds[0], body, branches);
  }

  lemma {:induction false} ReadBranches(cmds: seq<Command>, open: seq<bool>, elseSeen: bool)
      returns (r: Branches, rest: seq<Command>)
    requires Nested(cmds, open + [elseSeen]) && (cmds != [] ==> NeedsIf(cmds[0]))
    ensures WellFormedBranches(r) && cmds == EmitBranches(r) + rest && Nested(rest, open) && |rest| < |cmds|
    ensures elseSeen ==> r.End?
    decreases |cmds|, 0
  {
    hide KindOf, JoinCondition, Negate;
    var all := open + [elseSeen];
    assert cmds != [] && all[..|all| - 1] == open;
    match KindOf(cmds[0]) {
      case EndIfKind => return End(cmds[0]), cmds[1..];
      case ElseIfKind =>
        var body, after := ReadBlocks(cmds[1..], open + [false]);
        var more;
        more, rest := ReadBranches(after, open, false);
        r := ElseIf(cmds[0], body, more);
      case ElseKind =>
        var body, after := ReadBlocks(cmds[1..], open + [true]);
        var close;
        close, rest := ReadBranches(after, open, true);
        r := Else(cmds[0], body, close.cmd);
    }
  }
}
