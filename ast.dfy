/**
 * The nodes of the abstract syntax tree and the three-address instruction text
 * each node prints as. `Debug` of a child node, of the `Option<String>` virtual
 * register and of the argument string are left to the caller as `show`
 * functions; the mnemonic tables are spelled out.
 */
module Ast {
  import opened Wrappers

  /** The value type of a node. The `f32` payload of `Float` is not modelled. */
  datatype Type = Int(value: int) | Float

  predicate IsInt(t: Type) {
    match t
    case Int(_) => true
    case Float => false
  }

  predicate IsFloat(t: Type) {
    match t
    case Int(_) => false
    case Float => true
  }

  /** Every value type is an int or a float, never both. */
  lemma ExactlyOneTag(t: Type)
    ensures IsInt(t) <==> !IsFloat(t)
  {
  }

  datatype NodeType =
    | Num | VarID | IOID
    | Add | Sub | Mult | Div | Eq | Lt
    | IntToFloat | FloatToInt | IntToVR | FloatToVR
    | Leaf

  // ---------------------------------------------------------------------------
  // The `Debug` tables, one arm per variant

  function Mnemonic(k: NodeType): string {
    match k
    case Num => "2vr"
    case VarID => ""
    case IOID => "2vr"
    case Add => "add"
    case Sub => "sub"
    case Mult => "mult"
    case Div => "div"
    case Eq => "eq"
    case Lt => "lt"
    case IntToFloat => "vr_int2float"
    case FloatToInt => "vr_float2int"
    case IntToVR => "int2vr"
    case FloatToVR => "float2vr"
    case Leaf => "Leaf Node"
  }

  function TypeLetter(t: Type): string {
    match t
    case Int(_) => "i"
    case Float => "f"
  }

  /** The kinds printed as a load of a constant or an input: `int2vr` / `float2vr`, no `;`. */
  predicate IsLoad(k: NodeType) { k == IOID || k == Num }

  /**
   * The operation part of an instruction: for a load, "int" or "float" and the
   * mnemonic; for any other kind, the mnemonic and the type letter.
   */
  function Opcode(k: NodeType, t: Type): string {
    if IsLoad(k) then (if IsInt(t) then "int" else "float") + Mnemonic(k)
    else Mnemonic(k) + TypeLetter(t)
  }

  /** The two load kinds print alike; every other kind stands for itself. */
  function Canon(k: NodeType): NodeType {
    if IsLoad(k) then Num else k
  }

  /** The kind a mnemonic of a non-load instruction spells, if any. */
  function KindOfMnemonic(m: string): Option<NodeType> {
    if m == "add" then Some(Add)
    else if m == "sub" then Some(Sub)
    else if m == "mult" then Some(Mult)
    else if m == "div" then Some(Div)
    else if m == "eq" then Some(Eq)
    else if m == "lt" then Some(Lt)
    else if m == "vr_int2float" then Some(IntToFloat)
    else if m == "vr_float2int" then Some(FloatToInt)
    else if m == "int2vr" then Some(IntToVR)
    else if m == "float2vr" then Some(FloatToVR)
    else if m == "Leaf Node" then Some(Leaf)
    else None
  }

  /** Reads an opcode back into its kind (up to Canon) and whether its type is int. */
  function DecodeOpcode(o: string): Option<(NodeType, bool)> {
    if o == "int2vr" then Some((Num, true))
    else if o == "float2vr" then Some((Num, false))
    else if |o| == 0 || (o[|o| - 1] != 'i' && o[|o| - 1] != 'f') then None
    else
      match KindOfMnemonic(o[..|o| - 1])
      case None => None
      case Some(k) => Some((k, o[|o| - 1] == 'i'))
  }

  /** Every opcode reads back as the kind and the type tag it was printed from. */
  lemma OpcodeRoundTrip(k: NodeType, t: Type)
    requires k != VarID
    ensures DecodeOpcode(Opcode(k, t)) == Some((Canon(k), IsInt(t)))
  {
    var o := Opcode(k, t);
    if !IsLoad(k) {
      assert o[..|o| - 1] == Mnemonic(k);
    }
  }

  /**
   * The opcode of an instruction names its value type and, apart from the two
   * load kinds that share `2vr`, its node kind.
   */
  lemma OpcodeIdentifies(k1: NodeType, t1: Type, k2: NodeType, t2: Type)
    requires k1 != VarID && k2 != VarID
    requires Opcode(k1, t1) == Opcode(k2, t2)
    ensures IsInt(t1) == IsInt(t2)
    ensures k1 == k2 || (IsLoad(k1) && IsLoad(k2))
  {
    OpcodeRoundTrip(k1, t1);
    OpcodeRoundTrip(k2, t2);
  }

  // ---------------------------------------------------------------------------
  // The tables as the source spells them: each arm is a bare name, which Rust
  // reads as a binding that matches anything, so the first arm always wins.

  function MnemonicAsWritten(k: NodeType): (r: string)
    ensures r == Mnemonic(Num)
  {
    "2vr"
  }

  function TypeLetterAsWritten(t: Type): (r: string)
    ensures r == TypeLetter(Int(0))
  {
    "i"
  }

  function OpcodeAsWritten(k: NodeType, t: Type): string {
    if IsLoad(k) then (if IsInt(t) then "int" else "float") + MnemonicAsWritten(k)
    else MnemonicAsWritten(k) + TypeLetterAsWritten(t)
  }

  /** With the catch-all arms an integer add and a float subtract print the same opcode. */
  lemma CatchAllArmsCollapse()
    ensures OpcodeAsWritten(Add, Int(0)) == OpcodeAsWritten(Sub, Float) == "2vri"
    ensures Opcode(Add, Int(0)) == "addi" && Opcode(Sub, Float) == "subf"
  {
  }

  // ---------------------------------------------------------------------------
  // Nodes

  /** The text of `three_addr_code`, or the panic on a node with more than two children. */
  datatype Rendered = Text(text: string) | TooManyChildren(count: nat)

  /** The argument text: nothing, `(c0)` or `(c0,c1)`; `None` for any other arity. */
  function ArgList(children: seq<Node>, showNode: Node -> string): Option<string> {
    if |children| == 0 then Some("")
    else if |children| == 1 then Some("(" + showNode(children[0]) + ")")
    else if |children| == 2 then Some("(" + showNode(children[0]) + "," + showNode(children[1]) + ")")
    else None
  }

  /** Position of the first ',' in `s`, or `|s|` when there is none. */
  function CommaAt(s: string): (i: nat)
    ensures i <= |s|
    ensures forall j :: 0 <= j < i ==> s[j] != ','
    ensures i < |s| ==> s[i] == ','
  {
    if s == [] || s[0] == ',' then 0 else 1 + CommaAt(s[1..])
  }

  /** Reads an argument text back into the printed children. */
  function SplitArgs(a: string): seq<string> {
    if |a| < 2 then []
    else
      var inner := a[1..|a| - 1];
      var c := CommaAt(inner);
      if c == |inner| then [inner] else [inner[..c], inner[c + 1..]]
  }

  /**
   * The layout of the argument text for any printed children: there is one
   * exactly for 0, 1 or 2 children. With one child it is the child in
   * parentheses. With two, the first child follows '(', the second runs from
   * just after the separating ',' to the closing ')'.
   */
  lemma ArgListShape(children: seq<Node>, showNode: Node -> string)
    ensures ArgList(children, showNode).Some? <==> |children| <= 2
    ensures |children| == 0 ==> ArgList(children, showNode) == Some("")
    ensures |children| == 1 ==>
      var a, s0 := ArgList(children, showNode).value, showNode(children[0]);
      && |a| == |s0| + 2 && a[0] == '(' && a[1..|a| - 1] == s0 && a[|a| - 1] == ')'
    ensures |children| == 2 ==>
      var a, s0, s1 := ArgList(children, showNode).value, showNode(children[0]), showNode(children[1]);
      && |a| == |s0| + |s1| + 3
      && a[..|s0| + 1] == "(" + s0 && a[|s0| + 1] == ','
      && a[|s0| + 2..|a| - 1] == s1 && a[|a| - 1] == ')'
  {
    if |children| == 1 {
      var a, s0 := ArgList(children, showNode).value, showNode(children[0]);
      assert a == "(" + s0 + ")";
      assert a[1..|a| - 1] == s0;
    } else if |children| == 2 {
      var a, s0, s1 := ArgList(children, showNode).value, showNode(children[0]), showNode(children[1]);
      assert a == "(" + s0 + "," + s1 + ")";
      assert a[..|s0| + 1] == "(" + s0;
      assert a[|s0| + 2..|a| - 1] == s1;
    }
  }

  /**
   * The argument text keeps every child, in order: reading it back gives the
   * printed children, provided no printed child contains a comma.
   */
  lemma {:induction false} ArgListRoundTrip(children: seq<Node>, showNode: Node -> string)
    requires |children| <= 2
    requires forall i :: 0 <= i < |children| ==> ',' !in showNode(children[i])
    ensures ArgList(children, showNode).Some?
    ensures |SplitArgs(ArgList(children, showNode).value)| == |children|
    ensures forall i :: 0 <= i < |children| ==> SplitArgs(ArgList(children, showNode).value)[i] == showNode(children[i])
  {
    if |children| == 1 {
      var s0 := showNode(children[0]);
      var a := "(" + s0 + ")";
      assert a[1..|a| - 1] == s0;
      NoCommaAtEnd(s0);
    } else if |children| == 2 {
      var s0, s1 := showNode(children[0]), showNode(children[1]);
      var a := "(" + s0 + "," + s1 + ")";
      var inner := a[1..|a| - 1];
      assert inner == s0 + "," + s1;
      CommaAfterPrefix(s0, s1);
      assert inner[..|s0|] == s0 && inner[|s0| + 1..] == s1;
    }
  }

  lemma NoCommaAtEnd(s: string)
    requires ',' !in s
    ensures CommaAt(s) == |s|
  {
  }

  lemma CommaAfterPrefix(s0: string, s1: string)
    requires ',' !in s0
    ensures CommaAt(s0 + "," + s1) == |s0|
  {
    var x := s0 + "," + s1;
    assert x[|s0|] == ',';
    assert forall j :: 0 <= j < |s0| ==> x[j] == s0[j];
  }

  class Node {
    var nodeType: NodeType
    var valType: Type
    var children: seq<Node>
    var vr: Option<string>

    /** A node with no children and no virtual register. */
    constructor (nodeType: NodeType, valType: Type)
      ensures this.nodeType == nodeType && this.valType == valType
      ensures children == [] && vr == None
    {
      this.nodeType := nodeType;
      this.valType := valType;
      children := [];
      vr := None;
    }

    /** A node whose only child is the subtree `ast`. */
    constructor GrowAst(nodeType: NodeType, valType: Type, ast: Node)
      ensures this.nodeType == nodeType && this.valType == valType
      ensures children == [ast] && vr == None
    {
      this.nodeType := nodeType;
      this.valType := valType;
      children := [ast];
      vr := None;
    }

    /** Names the virtual register of the node; nothing else changes. */
    method SetVr(v: string)
      modifies this
      ensures vr == Some(v)
      ensures nodeType == old(nodeType) && valType == old(valType) && children == old(children)
    {
      vr := Some(v);
    }

    /**
     * The instruction the node prints as. The arity is checked first, so a
     * node with more than two children panics whatever its kind.
     */
    function ThreeAddrCode(showNode: Node -> string, showVr: Option<string> -> string,
                           showStr: string -> string): (r: Rendered)
      reads this
      ensures r.TooManyChildren? <==> 2 < |children|
      ensures r.TooManyChildren? ==> r.count == |children|
    {
      match ArgList(children, showNode)
      case None => TooManyChildren(|children|)
      case Some(args) =>
        if nodeType == VarID then Text("")
        else if IsLoad(nodeType) then Text(showVr(vr) + " = " + Opcode(nodeType, valType) + showStr(args))
        else Text(showVr(vr) + " = " + Opcode(nodeType, valType) + showStr(args) + ";")
    }
  }

  /** A variable reference prints nothing, provided it has at most two children. */
  lemma VarIdPrintsNothing(n: Node, showNode: Node -> string, showVr: Option<string> -> string,
                           showStr: string -> string)
    requires n.nodeType == VarID && |n.children| <= 2
    ensures n.ThreeAddrCode(showNode, showVr, showStr) == Text("")
  {
  }

  /**
   * Any other node prints as an assignment to its register: the register, " = ",
   * the opcode naming kind and type, then the printed argument text; every kind
   * except the two loads ends the instruction with ';'.
   */
  lemma InstructionShape(n: Node, showNode: Node -> string, showVr: Option<string> -> string,
                         showStr: string -> string)
    requires n.nodeType != VarID && |n.children| <= 2
    ensures var r := n.ThreeAddrCode(showNode, showVr, showStr);
      var head := showVr(n.vr) + " = " + Opcode(n.nodeType, n.valType);
      var args := showStr(ArgList(n.children, showNode).value);
      && r.Text?
      && head <= r.text
      && (IsLoad(n.nodeType) ==> r.text == head + args)
      && (!IsLoad(n.nodeType) ==> r.text == head + args + ";" && r.text[|r.text| - 1] == ';')
  {
  }
}
