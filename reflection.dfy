/**
 * The reflection exchange: `getServerServices`, `getFileDescriptorProto` and
 * `getServiceMethods`, each a method on the scripted stream that is proved
 * equal to a function of the stream's state, and the lemmas about those
 * functions (order, one request per service, abort on the first failure).
 */
module Reflection {
  import opened Wrappers
  import opened Descriptors
  import opened Transport
  import opened Projection

  /**
   * Why an exchange stopped. A response of the other kind makes the program
   * dereference a nil pointer (`GetListServicesResponse()` or
   * `GetFileDescriptorResponse()` returns nil), which crashes it.
   */
  datatype Error =
    | TransportError(message: string)
    | DecodeError(blob: nat)
    | NilDereference

  /** The host hint sent with every request. */
  const Host := "localhost"

  function ListServicesRequest(): Request
  {
    Request(Host, ListServices(""))
  }

  function SymbolRequest(service: string): Request
  {
    Request(Host, FileContainingSymbol(service))
  }

  /** The next `Send` on `st` succeeds. */
  predicate SendSucceeds(st: StreamState)
  {
    st.sendOutcomes == [] || st.sendOutcomes[0].None?
  }

  /** The next `Recv` on `st` yields `resp`. */
  predicate Replies(st: StreamState, resp: Response)
  {
    st.recvOutcomes != [] && st.recvOutcomes[0] == Ok(resp)
  }

  function ServiceNames(entries: seq<ServiceResponse>): seq<string>
  {
    seq(|entries|, i requires 0 <= i < |entries| => entries[i].name)
  }

  /** What `getServerServices` does to a stream in state `st`. */
  function ListServicesSpec(st: StreamState): (x: Exchange<Result<seq<string>, Error>>)
    ensures !SendSucceeds(st) ==> x == Exchange(Err(TransportError(st.sendOutcomes[0].value)), SendStep(st, ListServicesRequest()).after)
    ensures SendSucceeds(st) ==> x.after.sent == st.sent + [ListServicesRequest()]
    ensures x.result.Ok? <==> SendSucceeds(st) && st.recvOutcomes != [] && st.recvOutcomes[0].Ok?
                              && st.recvOutcomes[0].value.ListServicesResponse?
    ensures SendSucceeds(st) && st.recvOutcomes == [] ==> x.result == Err(TransportError(EndOfStream))
    ensures SendSucceeds(st) && st.recvOutcomes != [] && st.recvOutcomes[0].Err? ==>
              x.result == Err(TransportError(st.recvOutcomes[0].error))
    ensures (SendSucceeds(st) && st.recvOutcomes != [] && st.recvOutcomes[0].Ok? &&
             !st.recvOutcomes[0].value.ListServicesResponse?) ==> x.result == Err(NilDereference)
    ensures x.result.Ok? ==> x.after.recvOutcomes == st.recvOutcomes[1..]
  {
    var s := SendStep(st, ListServicesRequest());
    if s.result.Some? then Exchange(Err(TransportError(s.result.value)), s.after)
    else
      var r := RecvStep(s.after);
      if r.result.Err? then Exchange(Err(TransportError(r.result.error)), r.after)
      else if r.result.value.ListServicesResponse? then Exchange(Ok(ServiceNames(r.result.value.service)), r.after)
      else Exchange(Err(NilDereference), r.after)
  }

  /**
   * Decodes every blob, in order. The first blob that does not decode stops
   * the whole decoding: no partial list is returned.
   */
  function DecodeAll(blobs: seq<Blob>, decode: Decoder): (r: Result<seq<FileDescriptor>, Error>)
    ensures r.Ok? <==> forall i :: 0 <= i < |blobs| ==> decode(blobs[i]).Some?
    ensures r.Ok? ==> |r.value| == |blobs| && forall i :: 0 <= i < |blobs| ==> decode(blobs[i]) == Some(r.value[i])
    ensures r.Err? ==> r.error.DecodeError? && r.error.blob < |blobs| && decode(blobs[r.error.blob]).None?
                       && forall i :: 0 <= i < r.error.blob ==> decode(blobs[i]).Some?
  {
    if blobs == [] then Ok([])
    else
      match decode(blobs[0])
      case None => Err(DecodeError(0))
      case Some(d) =>
        match DecodeAll(blobs[1..], decode)
        case Ok(ds) => Ok([d] + ds)
        case Err(e) => Err(DecodeError(e.blob + 1))
  }

  /** What `getFileDescriptorProto` does to a stream in state `st`. */
  function FetchSpec(st: StreamState, service: string, decode: Decoder): (x: Exchange<Result<seq<FileDescriptor>, Error>>)
    ensures !SendSucceeds(st) ==> x == Exchange(Err(TransportError(st.sendOutcomes[0].value)), SendStep(st, SymbolRequest(service)).after)
    ensures SendSucceeds(st) ==> x.after.sent == st.sent + [SymbolRequest(service)]
    ensures SendSucceeds(st) && st.recvOutcomes == [] ==> x.result == Err(TransportError(EndOfStream))
    ensures SendSucceeds(st) && st.recvOutcomes != [] && st.recvOutcomes[0].Err? ==>
              x.result == Err(TransportError(st.recvOutcomes[0].error))
    ensures (SendSucceeds(st) && st.recvOutcomes != [] && st.recvOutcomes[0].Ok? &&
             !st.recvOutcomes[0].value.FileDescriptorResponse?) ==> x.result == Err(NilDereference)
    ensures x.result.Ok? ==> x.after.recvOutcomes == st.recvOutcomes[1..]
  {
    var s := SendStep(st, SymbolRequest(service));
    if s.result.Some? then Exchange(Err(TransportError(s.result.value)), s.after)
    else
      var r := RecvStep(s.after);
      if r.result.Err? then Exchange(Err(TransportError(r.result.error)), r.after)
      else if r.result.value.FileDescriptorResponse? then Exchange(DecodeAll(r.result.value.fileDescriptorProto, decode), r.after)
      else Exchange(Err(NilDereference), r.after)
  }

  /** Fetching for each service in turn, concatenating the descriptors; the first failure ends it. */
  function FetchAllSpec(st: StreamState, services: seq<string>, decode: Decoder): (x: Exchange<Result<seq<FileDescriptor>, Error>>)
    ensures |st.sent| <= |x.after.sent| <= |st.sent| + |services|
    ensures x.after.sent[..|st.sent|] == st.sent
    decreases |services|
  {
    if services == [] then Exchange(Ok([]), st)
    else
      var x := FetchSpec(st, services[0], decode);
      if x.result.Err? then Exchange(Err(x.result.error), x.after)
      else
        var y := FetchAllSpec(x.after, services[1..], decode);
        if y.result.Err? then y else Exchange(Ok(x.result.value + y.result.value), y.after)
  }

  /** What `getServiceMethods` does to a stream in state `st`. */
  function ServiceMethodsSpec(st: StreamState, decode: Decoder, verbose: bool): (x: Exchange<Result<seq<ServiceMethod>, Error>>)
    ensures x.result.Ok? ==> ListServicesSpec(st).result.Ok?
    ensures |st.sent| <= |x.after.sent| && x.after.sent[..|st.sent|] == st.sent
    ensures ListServicesSpec(st).result.Ok? ==> |x.after.sent| <= |st.sent| + 1 + |ListServicesSpec(st).result.value|
  {
    var l := ListServicesSpec(st);
    if l.result.Err? then Exchange(Err(l.result.error), l.after)
    else
      var f := FetchAllSpec(l.after, l.result.value, decode);
      if f.result.Err? then Exchange(Err(f.result.error), f.after)
      else Exchange(Ok(FromFiles(f.result.value, verbose)), f.after)
  }

  /** A list-services reply yields the names of its entries, in order. */
  lemma ListServicesNames(st: StreamState, entries: seq<ServiceResponse>)
    requires SendSucceeds(st) && Replies(st, ListServicesResponse(entries))
    ensures var r := ListServicesSpec(st).result;
      r.Ok? && |r.value| == |entries| && forall i :: 0 <= i < |entries| ==> r.value[i] == entries[i].name
  {
  }

  /** A file-descriptor reply yields its blobs decoded, or the first decoding failure. */
  lemma FetchDecodesReply(st: StreamState, service: string, decode: Decoder, blobs: seq<Blob>)
    requires SendSucceeds(st) && Replies(st, FileDescriptorResponse(blobs))
    ensures FetchSpec(st, service, decode).result == DecodeAll(blobs, decode)
  {
  }

  /** `getServerServices`. */
  method GetServerServices(stream: ReflectionStream) returns (r: Result<seq<string>, Error>)
    modifies stream
    ensures Exchange(r, stream.State()) == ListServicesSpec(old(stream.State()))
  {
    var err := stream.Send(ListServicesRequest());
    if err.Some? {
      return Err(TransportError(err.value));
    }
    var resp := stream.Recv();
    if resp.Err? {
      return Err(TransportError(resp.error));
    }
    if !resp.value.ListServicesResponse? {
      return Err(NilDereference);
    }
    var entries := resp.value.service;
    var out := [];
    for i := 0 to |entries|
      invariant |out| == i && forall k :: 0 <= k < i ==> out[k] == entries[k].name
    {
      out := out + [entries[i].name];
    }
    assert out == ServiceNames(entries);
    return Ok(out);
  }

  /** `getFileDescriptorProto`. */
  method GetFileDescriptorProto(stream: ReflectionStream, service: string, decode: Decoder)
    returns (r: Result<seq<FileDescriptor>, Error>)
    modifies stream
    ensures Exchange(r, stream.State()) == FetchSpec(old(stream.State()), service, decode)
  {
    var err := stream.Send(SymbolRequest(service));
    if err.Some? {
      return Err(TransportError(err.value));
    }
    var resp := stream.Recv();
    if resp.Err? {
      return Err(TransportError(resp.error));
    }
    if !resp.value.FileDescriptorResponse? {
      return Err(NilDereference);
    }
    var blobs := resp.value.fileDescriptorProto;
    var out := [];
    for i := 0 to |blobs|
      invariant |out| == i && forall k :: 0 <= k < i ==> decode(blobs[k]) == Some(out[k])
    {
      var fd := decode(blobs[i]);
      if fd.None? {
        return Err(DecodeError(i));
      }
      out := out + [fd.value];
    }
    assert DecodeAll(blobs, decode).value == out;
    return Ok(out);
  }

  /** `getServiceMethods`, with the global `-l` flag passed in as `verbose`. */
  method GetServiceMethods(stream: ReflectionStream, decode: Decoder, verbose: bool) returns (r: Result<seq<ServiceMethod>, Error>)
    modifies stream
    ensures Exchange(r, stream.State()) == ServiceMethodsSpec(old(stream.State()), decode, verbose)
  {
    var services := GetServerServices(stream);
    if services.Err? {
      return Err(services.error);
    }
    ghost var listed := stream.State();
    var names := services.value;
    var dscrpts := [];
    for i := 0 to |names|
      invariant FetchAllSpec(listed, names[..i], decode) == Exchange(Ok(dscrpts), stream.State())
    {
      ghost var before := stream.State();
      var dscrpt := GetFileDescriptorProto(stream, names[i], decode);
      FetchAllStep(listed, names, i, dscrpts, before, decode);
      if dscrpt.Err? {
        return Err(dscrpt.error);
      }
      dscrpts := dscrpts + dscrpt.value;
    }
    assert names[..|names|] == names;
    var sm := ServiceMethodsFromDescriptor(dscrpts, verbose);
    return Ok(sm);
  }

  /**
   * Fetching for `a + b` is fetching for `a` and then, unless that failed,
   * for `b` from where `a` left the stream: results are concatenated in
   * service order, and a failure anywhere discards everything fetched before.
   */
  lemma {:induction false} FetchAllCompose(st: StreamState, a: seq<string>, b: seq<string>, decode: Decoder)
    ensures var x := FetchAllSpec(st, a, decode);
      FetchAllSpec(st, a + b, decode) ==
        if x.result.Err? then x
        else
          var y := FetchAllSpec(x.after, b, decode);
          if y.result.Err? then y else Exchange(Ok(x.result.value + y.result.value), y.after)
    decreases |a|
  {
    if a == [] {
      assert a + b == b;
      var y := FetchAllSpec(st, b, decode);
      if y.result.Ok? {
        assert [] + y.result.value == y.result.value;
      }
    } else {
      var f := FetchSpec(st, a[0], decode);
      assert (a + b)[0] == a[0];
      assert (a + b)[1..] == a[1..] + b;
      if f.result.Ok? {
        FetchAllCompose(f.after, a[1..], b, decode);
        var x := FetchAllSpec(f.after, a[1..], decode);
        if x.result.Ok? {
          var y := FetchAllSpec(x.after, b, decode);
          if y.result.Ok? {
            assert f.result.value + (x.result.value + y.result.value) == (f.result.value + x.result.value) + y.result.value;
          }
        }
      }
    }
  }

  /** One turn of the loop in `getServiceMethods`. */
  lemma FetchAllStep(listed: StreamState, names: seq<string>, i: nat, dscrpts: seq<FileDescriptor>,
                     before: StreamState, decode: Decoder)
    requires i < |names|
    requires FetchAllSpec(listed, names[..i], decode) == Exchange(Ok(dscrpts), before)
    ensures var x := FetchSpec(before, names[i], decode);
      if x.result.Ok? then FetchAllSpec(listed, names[..i + 1], decode) == Exchange(Ok(dscrpts + x.result.value), x.after)
      else FetchAllSpec(listed, names, decode) == Exchange(Err(x.result.error), x.after)
  {
    FetchAllCompose(listed, names[..i], [names[i]], decode);
    assert names[..i] + [names[i]] == names[..i + 1];
    FetchAllSingle(before, names[i], decode);
    var x := FetchSpec(before, names[i], decode);
    if x.result.Err? {
      FetchAllAbort(listed, names[..i + 1], names[i + 1..], decode);
      assert names[..i + 1] + names[i + 1..] == names;
    }
  }

  /** Once fetching fails, fetching for further services changes nothing: no request is sent after the failure. */
  lemma FetchAllAbort(st: StreamState, a: seq<string>, b: seq<string>, decode: Decoder)
    requires FetchAllSpec(st, a, decode).result.Err?
    ensures FetchAllSpec(st, a + b, decode) == FetchAllSpec(st, a, decode)
  {
    FetchAllCompose(st, a, b, decode);
  }

  /** Fetching for one service is one `getFileDescriptorProto` exchange. */
  lemma FetchAllSingle(st: StreamState, service: string, decode: Decoder)
    ensures var x := FetchSpec(st, service, decode);
      FetchAllSpec(st, [service], decode) == if x.result.Err? then Exchange(Err(x.result.error), x.after) else x
  {
    var x := FetchSpec(st, service, decode);
    assert [service][1..] == [];
    if x.result.Ok? {
      assert x.result.value + [] == x.result.value;
    }
  }

  function SymbolRequests(services: seq<string>): seq<Request>
  {
    seq(|services|, i requires 0 <= i < |services| => SymbolRequest(services[i]))
  }

  lemma SymbolRequestsCons(services: seq<string>)
    requires services != []
    ensures SymbolRequests(services) == [SymbolRequest(services[0])] + SymbolRequests(services[1..])
  {
  }

  /**
   * A successful fetch sends exactly one file-containing-symbol request per
   * service, in enumeration order, and consumes exactly one response each.
   */
  lemma {:induction false} FetchAllRequests(st: StreamState, services: seq<string>, decode: Decoder)
    requires FetchAllSpec(st, services, decode).result.Ok?
    ensures FetchAllSpec(st, services, decode).after.sent == st.sent + SymbolRequests(services)
    ensures |services| <= |st.recvOutcomes|
    ensures FetchAllSpec(st, services, decode).after.recvOutcomes == st.recvOutcomes[|services|..]
    decreases |services|
  {
    if services != [] {
      var x := FetchSpec(st, services[0], decode);
      assert x.result.Ok?;
      var y := FetchAllSpec(x.after, services[1..], decode);
      assert FetchAllSpec(st, services, decode) == Exchange(Ok(x.result.value + y.result.value), y.after);
      FetchAllRequests(x.after, services[1..], decode);
      SymbolRequestsCons(services);
      assert y.after.sent == (st.sent + [SymbolRequest(services[0])]) + SymbolRequests(services[1..]);
      assert st.recvOutcomes[1..][|services| - 1..] == st.recvOutcomes[|services|..];
    }
  }

  /**
   * A successful `getServiceMethods` sends one list-services request and
   * then one symbol request per listed service, in the order listed.
   */
  lemma ServiceMethodsRequests(st: StreamState, decode: Decoder, verbose: bool)
    requires ServiceMethodsSpec(st, decode, verbose).result.Ok?
    ensures ListServicesSpec(st).result.Ok?
    ensures ServiceMethodsSpec(st, decode, verbose).after.sent
         == st.sent + [ListServicesRequest()] + SymbolRequests(ListServicesSpec(st).result.value)
  {
    var l := ListServicesSpec(st);
    FetchAllRequests(l.after, l.result.value, decode);
  }

  /** A failed list-services exchange ends `getServiceMethods` before any symbol request. */
  lemma ServiceMethodsListFailure(st: StreamState, decode: Decoder, verbose: bool)
    requires ListServicesSpec(st).result.Err?
    ensures ServiceMethodsSpec(st, decode, verbose).result.Err?
    ensures ServiceMethodsSpec(st, decode, verbose).after.sent == ListServicesSpec(st).after.sent
    ensures |ServiceMethodsSpec(st, decode, verbose).after.sent| <= |st.sent| + 1
  {
  }
}
