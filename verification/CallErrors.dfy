/** What a failed call reports (mcpclient/client.go): rejected, unreachable, or nothing at all. */
module CallErrors {
  import opened GoTypes

  /** A Go error: its identity, its code if it is a *jsonrpc.Error, and what it wraps. A nil error is None. */
  datatype Error = Error(id: nat, rpc: Option<int>, wraps: Wraps)
  datatype Wraps = Nothing | One(e: Option<Error>) | Many(es: seq<Option<Error>>)

  const REJECTED_BY_TRANSPORT := -32005

  predicate ServerSent(e: Error) {
    e.rpc.Some? && e.rpc.value != REJECTED_BY_TRANSPORT
  }

  predicate HasServerRpcError(err: Option<Error>)
    decreases err
  {
    err.Some? &&
    (ServerSent(err.value) ||
     match err.value.wraps
     case Nothing => false
     case One(e) => HasServerRpcError(e)
     case Many(es) => exists i :: 0 <= i < |es| && HasServerRpcError(es[i]))
  }

  /** errors.Is for a sentinel. */
  predicate Is(err: Option<Error>, sentinel: nat)
    decreases err
  {
    err.Some? &&
    (err.value.id == sentinel ||
     match err.value.wraps
     case Nothing => false
     case One(e) => Is(e, sentinel)
     case Many(es) => exists i :: 0 <= i < |es| && Is(es[i], sentinel))
  }

  /** The error that wrapping leads to, choosing an alternative at every step. */
  function Wrapped(err: Option<Error>, path: seq<nat>): Option<Error>
    decreases |path|
  {
    if err.None? || path == [] then err
    else match err.value.wraps
      case Nothing => None
      case One(e) => if path[0] == 0 then Wrapped(e, path[1..]) else None
      case Many(es) => if path[0] < |es| then Wrapped(es[path[0]], path[1..]) else None
  }

  /** The error tree holds an error that meets `p`. */
  ghost predicate Somewhere(err: Option<Error>, p: Error -> bool) {
    exists path :: Wrapped(err, path).Some? && p(Wrapped(err, path).value)
  }

  ghost predicate SentSomewhere(err: Option<Error>) {
    Somewhere(err, e => ServerSent(e))
  }

  lemma Deeper(err: Option<Error>, i: nat, path: seq<nat>)
    requires err.Some?
    ensures var e := err.value.wraps;
            Wrapped(err, [i] + path) ==
            if e.One? && i == 0 then Wrapped(e.e, path)
            else if e.Many? && i < |e.es| then Wrapped(e.es[i], path) else None
  {
    assert ([i] + path)[1..] == path;
  }

  lemma FoundBelow(err: Option<Error>, p: Error -> bool, i: nat, kid: Option<Error>)
    requires err.Some? && Somewhere(kid, p)
    requires (err.value.wraps == One(kid) && i == 0)
          || (err.value.wraps.Many? && i < |err.value.wraps.es| && err.value.wraps.es[i] == kid)
    ensures Somewhere(err, p)
  {
    var path :| Wrapped(kid, path).Some? && p(Wrapped(kid, path).value);
    Deeper(err, i, path);
  }

  lemma FoundHere(err: Option<Error>, p: Error -> bool)
    requires err.Some? && p(err.value)
    ensures Somewhere(err, p)
  {
    assert Wrapped(err, []) == err;
  }

  lemma FoundHereOrBelow(err: Option<Error>, p: Error -> bool)
    requires err.Some? && Somewhere(err, p)
    ensures p(err.value)
         || (err.value.wraps.One? && Somewhere(err.value.wraps.e, p))
         || (err.value.wraps.Many? && exists i :: 0 <= i < |err.value.wraps.es| && Somewhere(err.value.wraps.es[i], p))
  {
    var path :| Wrapped(err, path).Some? && p(Wrapped(err, path).value);
    if path != [] {
      assert path == [path[0]] + path[1..];
      Deeper(err, path[0], path[1..]);
    }
  }

  /** A tree is searched by looking at its root and at each alternative below. */
  lemma SearchedByLevels(err: Option<Error>, p: Error -> bool)
    requires err.Some?
    ensures Somewhere(err, p) <==>
            || p(err.value)
            || (err.value.wraps.One? && Somewhere(err.value.wraps.e, p))
            || (err.value.wraps.Many?
                && exists i :: 0 <= i < |err.value.wraps.es| && Somewhere(err.value.wraps.es[i], p))
  {
    var w := err.value.wraps;
    if Somewhere(err, p) {
      FoundHereOrBelow(err, p);
    } else {
      if p(err.value) {
        FoundHere(err, p);
      }
      if w.One? && Somewhere(w.e, p) {
        FoundBelow(err, p, 0, w.e);
      }
      if w.Many? {
        if i :| 0 <= i < |w.es| && Somewhere(w.es[i], p) {
          FoundBelow(err, p, i, w.es[i]);
        }
      }
    }
  }

  /** The walk finds a server's JSON-RPC error exactly if the error tree holds one. */
  lemma {:induction false} FoundExactly(err: Option<Error>)
    ensures HasServerRpcError(err) <==> SentSomewhere(err)
    decreases err
  {
    if err.Some? {
      SearchedByLevels(err, e => ServerSent(e));
      match err.value.wraps {
        case Nothing =>
        case One(e) => FoundExactly(e);
        case Many(es) =>
          forall i | 0 <= i < |es|
            ensures HasServerRpcError(es[i]) <==> SentSomewhere(es[i])
          {
            FoundExactly(es[i]);
          }
      }
    }
  }

  /** And errors.Is finds a sentinel exactly if it is in the tree. */
  lemma {:induction false} IsExactly(err: Option<Error>, sentinel: nat)
    ensures Is(err, sentinel) <==> Somewhere(err, (e: Error) => e.id == sentinel)
    decreases err
  {
    if err.Some? {
      SearchedByLevels(err, (e: Error) => e.id == sentinel);
      match err.value.wraps {
        case Nothing =>
        case One(e) => IsExactly(e, sentinel);
        case Many(es) =>
          forall i | 0 <= i < |es|
            ensures Is(es[i], sentinel) <==> Somewhere(es[i], (e: Error) => e.id == sentinel)
          {
            IsExactly(es[i], sentinel);
          }
      }
    }
  }

  // ----- classification

  predicate RejectedStatus(code: int) {
    400 <= code < 500 && code != 429 && code != 408
  }

  /** What Call returns for an error of Connect or CallTool: wrapped as ErrRejected or ErrUnreachable, as it
      is, or no error. */
  datatype Report = Rejected | Unreachable | AsIs | Silent

  const ERR_TOOL_ERROR: nat := 3

  function UnreachableErr(err: Error, tolerant: bool): Report {
    if Is(Some(err), ERR_TOOL_ERROR) then AsIs else if tolerant then Silent else Unreachable
  }

  /** `status` is the last HTTP status of the call, 0 if there was none. */
  function ClassifyErr(err: Error, status: int, tolerant: bool): Report {
    if HasServerRpcError(Some(err)) || RejectedStatus(status) then Rejected else UnreachableErr(err, tolerant)
  }

  /** The server said no: it sent a JSON-RPC error, or answered with a definite 4xx status. */
  ghost predicate SaidNo(err: Error, status: int) {
    SentSomewhere(Some(err)) || (status / 100 == 4 && status !in {408, 429})
  }

  ghost predicate ToolFailed(err: Error) {
    Somewhere(Some(err), (e: Error) => e.id == ERR_TOOL_ERROR)
  }

  /** A server that said no is always reported, as a rejection, in tolerant mode too. Otherwise an error of the
      tool itself is passed on as it is, and tolerant mode decides between silence and "unreachable". */
  lemma RejectionSurfaces(err: Error, status: int, tolerant: bool)
    ensures ClassifyErr(err, status, tolerant).Rejected? <==> SaidNo(err, status)
    ensures ClassifyErr(err, status, tolerant).AsIs? <==> !SaidNo(err, status) && ToolFailed(err)
    ensures ClassifyErr(err, status, tolerant).Silent? <==> !SaidNo(err, status) && !ToolFailed(err) && tolerant
    ensures ClassifyErr(err, status, tolerant).Unreachable? <==>
            !SaidNo(err, status) && !ToolFailed(err) && !tolerant
  {
    FoundExactly(Some(err));
    IsExactly(Some(err), ERR_TOOL_ERROR);
  }
}
