/**
 * The scoped symbol table of the parser: a stack of frames, innermost last,
 * each mapping an identifier to what is known about the variable.
 */
module Parser {

  /** The value type of a variable. The `f32` payload of `Float` is not modelled. */
  datatype Type = Int(value: int) | Float

  datatype VarInfo = VarInfo(val: Type)

  type Frame = map<string, VarInfo>

  /** The result of a declaration: the new stack, or the panic on a redeclaration. */
  datatype Declared = Ok(stack: seq<Frame>) | AlreadyDeclared(id: string, lineno: nat)

  function Top(stack: seq<Frame>): Frame
    requires |stack| > 0
  {
    stack[|stack| - 1]
  }

  /**
   * Declares `id` in the innermost frame. It fails exactly when `id` is
   * already a key of that frame; bindings in outer frames do not matter.
   */
  function Declare(stack: seq<Frame>, lineno: nat, id: string, info: VarInfo): (r: Declared)
    requires |stack| > 0
    ensures r.AlreadyDeclared? <==> id in Top(stack)
    ensures r.AlreadyDeclared? ==> r.id == id && r.lineno == lineno
    ensures r.Ok? ==> |r.stack| == |stack|
  {
    if id in Top(stack) then AlreadyDeclared(id, lineno)
    else Ok(stack[|stack| - 1 := Top(stack)[id := info]])
  }

  /**
   * After a successful declaration the identifier is bound to `info` in the
   * innermost frame, every other binding of that frame is kept, and the outer
   * frames and their number are unchanged.
   */
  lemma DeclareBinds(stack: seq<Frame>, lineno: nat, id: string, info: VarInfo)
    requires |stack| > 0 && id !in Top(stack)
    ensures var r := Declare(stack, lineno, id, info);
      && r.Ok? && |r.stack| == |stack|
      && id in Top(r.stack) && Top(r.stack)[id] == info
      && Top(r.stack).Keys == Top(stack).Keys + {id}
      && (forall x :: x in Top(stack) ==> Top(r.stack)[x] == Top(stack)[x])
      && r.stack[..|stack| - 1] == stack[..|stack| - 1]
  {
  }

  /** A name bound only in an outer frame may be declared again: shadowing is allowed. */
  lemma ShadowingAllowed(stack: seq<Frame>, lineno: nat, id: string, info: VarInfo, i: nat)
    requires i < |stack| - 1 && id in stack[i] && id !in Top(stack)
    ensures Declare(stack, lineno, id, info).Ok?
    ensures Declare(stack, lineno, id, info).stack[i] == stack[i]
  {
  }

  /** Declaring the same name twice in a frame fails the second time, at the second line. */
  lemma RedeclarationFails(stack: seq<Frame>, line1: nat, line2: nat, id: string, info1: VarInfo, info2: VarInfo)
    requires |stack| > 0
    requires Declare(stack, line1, id, info1).Ok?
    ensures Declare(Declare(stack, line1, id, info1).stack, line2, id, info2) == AlreadyDeclared(id, line2)
  {
  }

  class SymbolTable {
    var htStack: seq<Frame>

    ghost predicate Valid()
      reads this
    {
      |htStack| > 0
    }

    /** One frame, with no bindings. */
    constructor Init()
      ensures Valid() && htStack == [map[]]
    {
      htStack := [map[]];
    }

    /**
     * Declares `id` in the innermost frame. On a redeclaration the table is
     * left as it was and `ok` is false, where the source panics.
     */
    method Insert(lineno: nat, id: string, info: VarInfo) returns (ok: bool)
      requires Valid()
      modifies this
      ensures Valid()
      ensures ok <==> Declare(old(htStack), lineno, id, info).Ok?
      ensures htStack == if ok then Declare(old(htStack), lineno, id, info).stack else old(htStack)
    {
      if id in htStack[|htStack| - 1] {
        return false;
      }
      var n := |htStack|;
      htStack := htStack[n - 1 := htStack[n - 1][id := info]];
      return true;
    }
  }
}
