/**
 * The command switch at the end of `main`: `ls`, `lsm` and `find_method`
 * run on an already open reflection stream; their result and the process
 * exit status.
 */
module Command {
  import opened Wrappers
  import opened GoStrings
  import opened Descriptors
  import opened Transport
  import opened Reflection
  import opened Find

  /** How a run of the command ends. */
  datatype Outcome =
    | ServicesListed(services: seq<string>)
    | MethodsListed(methods: seq<ServiceMethod>)
    | MethodsFound(printed: seq<ServiceMethod>, status: int)
    | Fatal(error: Error)
    | MissingMethodArgument
    | UnknownCommand(name: string)

  /**
   * The process exit status: `log.Fatal` and `log.Fatalf` exit with 1, a nil
   * dereference panics and the Go runtime exits with 2, `find_method` exits
   * with the status it computed, and a listing returns from `main` with 0.
   */
  function ExitStatus(o: Outcome): (code: int)
    ensures o.MethodsFound? ==> code == o.status
    ensures !o.MethodsFound? ==> code in {0, 1, 2}
    ensures !o.MethodsFound? ==> (code == 0 <==> o.ServicesListed? || o.MethodsListed?)
    ensures !o.MethodsFound? ==> (code == 2 <==> o == Fatal(NilDereference))
  {
    match o
    case ServicesListed(_) => 0
    case MethodsListed(_) => 0
    case MethodsFound(_, status) => status
    case Fatal(NilDereference) => 2
    case Fatal(_) => 1
    case MissingMethodArgument => 1
    case UnknownCommand(_) => 1
  }

  /** What the switch of `main` does with `-cmd cmd`, `-method term` and `-l verbose` on a stream in state `st`. */
  function RunSpec(st: StreamState, cmd: string, term: string, verbose: bool, decode: Decoder): (x: Exchange<Outcome>)
    ensures cmd != "ls" && cmd != "lsm" && cmd != "find_method" ==> x == Exchange(UnknownCommand(cmd), st)
    ensures cmd == "find_method" && term == [] ==> x == Exchange(MissingMethodArgument, st)
  {
    if cmd == "ls" then
      var l := ListServicesSpec(st);
      if l.result.Err? then Exchange(Fatal(l.result.error), l.after)
      else Exchange(ServicesListed(l.result.value), l.after)
    else if cmd == "lsm" then
      var m := ServiceMethodsSpec(st, decode, verbose);
      if m.result.Err? then Exchange(Fatal(m.result.error), m.after)
      else Exchange(MethodsListed(m.result.value), m.after)
    else if cmd == "find_method" then
      if |term| == 0 then Exchange(MissingMethodArgument, st)
      else
        var m := ServiceMethodsSpec(st, decode, verbose);
        if m.result.Err? then Exchange(Fatal(m.result.error), m.after)
        else
          var printed := Matches(m.result.value, term);
          Exchange(MethodsFound(printed, if printed != [] then 0 else 1), m.after)
    else Exchange(UnknownCommand(cmd), st)
  }

  /**
   * A run exits with 0, 1 or 2; with 2 exactly when it crashed on a nil
   * dereference; and a search exits with 0 exactly when it printed something.
   */
  lemma RunExitStatus(st: StreamState, cmd: string, term: string, verbose: bool, decode: Decoder)
    ensures var o := RunSpec(st, cmd, term, verbose, decode).result;
      ExitStatus(o) in {0, 1, 2} &&
      (ExitStatus(o) == 2 <==> o == Fatal(NilDereference)) &&
      (o.MethodsFound? ==> (ExitStatus(o) == 0 <==> o.printed != []))
  {
    var o := RunSpec(st, cmd, term, verbose, decode).result;
    assert o.MethodsFound? ==> o.status == (if o.printed != [] then 0 else 1);
    StatusOf(o);
  }

  /** `ExitStatus` of an outcome whose search status agrees with what it printed. */
  lemma StatusOf(o: Outcome)
    requires o.MethodsFound? ==> o.status == (if o.printed != [] then 0 else 1)
    ensures ExitStatus(o) in {0, 1, 2}
    ensures ExitStatus(o) == 2 <==> o == Fatal(NilDereference)
    ensures o.MethodsFound? ==> (ExitStatus(o) == 0 <==> o.printed != [])
  {
  }

  /** The switch of `main`. */
  method RunCommand(stream: ReflectionStream, cmd: string, term: string, verbose: bool, decode: Decoder)
    returns (o: Outcome)
    modifies stream
    ensures Exchange(o, stream.State()) == RunSpec(old(stream.State()), cmd, term, verbose, decode)
  {
    if cmd == "ls" {
      var services := GetServerServices(stream);
      if services.Err? {
        return Fatal(services.error);
      }
      return ServicesListed(services.value);
    } else if cmd == "lsm" {
      var sm := GetServiceMethods(stream, decode, verbose);
      if sm.Err? {
        return Fatal(sm.error);
      }
      return MethodsListed(sm.value);
    } else if cmd == "find_method" {
      if |term| == 0 {
        return MissingMethodArgument;
      }
      var sm := GetServiceMethods(stream, decode, verbose);
      if sm.Err? {
        return Fatal(sm.error);
      }
      var printed, status := FindMatches(sm.value, term);
      return MethodsFound(printed, status);
    } else {
      return UnknownCommand(cmd);
    }
  }

  /**
   * `find_method` prints exactly the enumerated methods whose name contains
   * the term, and exits with 0 exactly when there is one.
   */
  lemma FindOutcome(st: StreamState, term: string, verbose: bool, decode: Decoder)
    requires term != []
    requires ServiceMethodsSpec(st, decode, verbose).result.Ok?
    ensures var sm := ServiceMethodsSpec(st, decode, verbose).result.value;
      var o := RunSpec(st, "find_method", term, verbose, decode).result;
      o.MethodsFound? &&
      (forall r :: r in o.printed <==> r in sm && Contains(r.methodName, term)) &&
      (ExitStatus(o) == 0 <==> exists r :: r in sm && Contains(r.methodName, term))
  {
    var sm := ServiceMethodsSpec(st, decode, verbose).result.value;
    MatchesMembership(sm, term);
    FoundIffSomeMatch(sm, term);
  }

  /**
   * `find_method` is `lsm` followed by the filter: the same requests on the
   * stream, and the printed records are the listed ones that match, in order.
   */
  lemma FindFiltersListing(st: StreamState, term: string, verbose: bool, decode: Decoder)
    requires term != []
    ensures var f := RunSpec(st, "find_method", term, verbose, decode);
      var l := RunSpec(st, "lsm", term, verbose, decode);
      f.after == l.after &&
      (f.result.MethodsFound? <==> l.result.MethodsListed?) &&
      (l.result.MethodsListed? ==> f.result.printed == Matches(l.result.methods, term)) &&
      (l.result.Fatal? ==> f.result == l.result)
  {
  }

  /**
   * When the list-services exchange fails, every command that reaches the
   * stream ends fatally with that error and nothing listed, and no symbol
   * request is sent.
   */
  lemma ListFailureIsFatal(st: StreamState, cmd: string, term: string, verbose: bool, decode: Decoder)
    requires cmd == "ls" || cmd == "lsm" || (cmd == "find_method" && term != [])
    requires ListServicesSpec(st).result.Err?
    ensures RunSpec(st, cmd, term, verbose, decode).result == Fatal(ListServicesSpec(st).result.error)
    ensures RunSpec(st, cmd, term, verbose, decode).after.sent == ListServicesSpec(st).after.sent
    ensures ExitStatus(RunSpec(st, cmd, term, verbose, decode).result) != 0
  {
    ServiceMethodsListFailure(st, decode, verbose);
  }

  /**
   * A search that finds nothing exits with the same status as a fatal
   * transport error: the status alone does not tell the two apart.
   */
  lemma NotFoundSharesFatalStatus(st: StreamState, term: string, verbose: bool, decode: Decoder, message: string)
    requires term != []
    requires ServiceMethodsSpec(st, decode, verbose).result.Ok?
    requires forall r :: r in ServiceMethodsSpec(st, decode, verbose).result.value ==> !Contains(r.methodName, term)
    ensures ExitStatus(RunSpec(st, "find_method", term, verbose, decode).result) == ExitStatus(Fatal(TransportError(message)))
  {
    FindOutcome(st, term, verbose, decode);
  }
}
