/** The diagnostics the engine reports to the editor (uiTypes.ts): source
    ranges, hover texts, variable scopes, requirements and errors. */
module UiTypes {
  import opened Wrappers

  /** A source range, as character offsets. */
  datatype Bounds = Bounds(start: int, end: int)

  /** The range a syntax node covers; the parser leaves it out (`null`)
      when the node spans no token. */
  type Meta = Option<Bounds>

  /** A quick fix the editor may offer next to an error. */
  datatype ActionInfo = ReplaceWith(value: string)

  /** How a block is expected to end. */
  datatype ReturnMethod = Return | Break | Continue | Value

  function ReturnMethodText(m: ReturnMethod): string {
    match m
    case Return => "return"
    case Break => "break"
    case Continue => "continue"
    case Value => "value"
  }

  /** One entry of the diagnostics list. The `log` entry of the source
      carries a promise of the printed value; here it records only where
      the print statement is. */
  datatype Info =
    | VarHover(varInfo: Meta, hoverType: string)
    | ErrorInfo(errorText: string, errorMeta: Bounds, actionInfo: Option<ActionInfo>)
    | VarDefined(varType: string, varName: string, definedMeta: Meta)
    | Required(requirement: string, returnMethod: ReturnMethod, requiredMeta: Meta)
    | Log(logMeta: Meta)

  predicate IsError(i: Info) {
    i.ErrorInfo?
  }

  /** The number of error entries in a diagnostics list. */
  function ErrorCount(extra: seq<Info>): nat {
    if extra == [] then 0
    else ErrorCount(extra[..|extra| - 1]) + (if IsError(extra[|extra| - 1]) then 1 else 0)
  }

  /** Errors are counted entry by entry, so a longer list never has fewer. */
  lemma {:induction false} ErrorCountAppend(a: seq<Info>, b: seq<Info>)
    ensures ErrorCount(a + b) == ErrorCount(a) + ErrorCount(b)
    decreases |b|
  {
    if b == [] {
      assert a + b == a;
    } else {
      assert (a + b)[..|a + b| - 1] == a + b[..|b| - 1];
      ErrorCountAppend(a, b[..|b| - 1]);
    }
  }

  /** A list has an error entry exactly when its count is positive. */
  lemma {:induction false} ErrorCountPositive(extra: seq<Info>)
    ensures ErrorCount(extra) > 0 <==> exists i :: 0 <= i < |extra| && IsError(extra[i])
    decreases |extra|
  {
    if extra != [] {
      var front := extra[..|extra| - 1];
      ErrorCountPositive(front);
      if ErrorCount(front) > 0 {
        var i :| 0 <= i < |front| && IsError(front[i]);
        assert extra[i] == front[i];
      }
      forall i | 0 <= i < |front| && IsError(extra[i])
        ensures ErrorCount(front) > 0
      {
        assert front[i] == extra[i];
      }
    }
  }
}
