/** What reading a document computes: the variables of an ILA, expressions, instructions. */
module DocReading {
  import opened JsonDoc

  type IdMap = map<nat, RExpr>

  // ---------- variables ----------

  /** Whether DesVarUnit creates a variable for an entry. */
  predicate Creates(j: JIla, e: JExpr, ids: IdMap) {
    e.JVar? && e.id !in ids && (e.id in j.states || e.id in j.inputs)
  }

  function NewVar(j: JIla, e: JExpr): RExpr
    requires e.JVar?
  {
    RVar(j.name, e.name, e.sort)
  }

  /** The map after the first n entries. */
  function ScanIds(j: JIla, ast: seq<JExpr>, n: nat, ids: IdMap): IdMap
    requires n <= |ast|
  {
    if n == 0 then ids
    else
      var prev := ScanIds(j, ast, n - 1, ids);
      if Creates(j, ast[n - 1], prev) then prev[ast[n - 1].id := NewVar(j, ast[n - 1])] else prev
  }

  function ScanStates(j: JIla, ast: seq<JExpr>, n: nat, ids: IdMap): seq<RExpr>
    requires n <= |ast|
  {
    if n == 0 then []
    else
      var e := ast[n - 1];
      ScanStates(j, ast, n - 1, ids) +
      (if Creates(j, e, ScanIds(j, ast, n - 1, ids)) && e.id in j.states then [NewVar(j, e)] else [])
  }

  function ScanInputs(j: JIla, ast: seq<JExpr>, n: nat, ids: IdMap): seq<RExpr>
    requires n <= |ast|
  {
    if n == 0 then []
    else
      var e := ast[n - 1];
      ScanInputs(j, ast, n - 1, ids) +
      (if Creates(j, e, ScanIds(j, ast, n - 1, ids)) && e.id !in j.states then [NewVar(j, e)] else [])
  }

  // ---------- expressions ----------

  /** A variable must have been created, and arguments must have been read. */
  predicate Readable(ids: IdMap, e: JExpr) {
    match e
    case JVar(id, _, _) => id in ids
    case JConst(_, _, _) => true
    case JOp(id, _, args, _) => forall k {:trigger args[k]} :: 0 <= k < |args| ==> args[k] in ids
  }

  function LookUpAll(ids: IdMap, args: seq<nat>): (es: seq<RExpr>)
    requires forall k {:trigger args[k]} :: 0 <= k < |args| ==> args[k] in ids
    ensures |es| == |args| && forall k {:trigger es[k]} {:trigger args[k]} :: 0 <= k < |args| ==> es[k] == ids[args[k]]
  {
    seq(|args|, k requires 0 <= k < |args| => ids[args[k]])
  }

  function Read(ids: IdMap, e: JExpr): RExpr
    requires Readable(ids, e)
  {
    match e
    case JVar(id, _, _) => ids[id]
    case JConst(_, sort, value) => RConst(sort, value)
    case JOp(_, op, args, params) => ROp(op, LookUpAll(ids, args), params)
  }

  // ---------- instructions ----------

  function ReadUpdates(ids: IdMap, update: map<string, nat>, states: seq<RExpr>, n: nat): map<string, RExpr>
    requires n <= |states|
    requires forall k {:trigger states[k]} :: 0 <= k < n ==> UpdateFound(ids, update, states[k])
  {
    if n == 0 then map[]
    else
      var s := states[n - 1];
      assert UpdateFound(ids, update, s);
      ReadUpdates(ids, update, states, n - 1)[s.name := ids[update[s.name]]]
  }

  predicate UpdateFound(ids: IdMap, update: map<string, nat>, s: RExpr) {
    s.RVar? && s.name in update && update[s.name] in ids
  }

  predicate InstrFound(ids: IdMap, j: JInstr, states: seq<RExpr>) {
    j.decode in ids && forall k {:trigger states[k]} :: 0 <= k < |states| ==> UpdateFound(ids, j.update, states[k])
  }

  function ReadInstr(ids: IdMap, j: JInstr, states: seq<RExpr>): RInstr
    requires InstrFound(ids, j, states)
  {
    RInstr(j.name, ids[j.decode], ReadUpdates(ids, j.update, states, |states|))
  }

  /** Without a fetch function the constant 1 of one bit is set. */
  const DEFAULT_FETCH: RExpr := RConst("bv1", "1")
}
