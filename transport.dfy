/**
 * The `ServerReflectionInfo` bidirectional stream of the gRPC server
 * reflection protocol (`grpc.reflection.v1alpha`), as seen by the client:
 * the two request kinds it sends, the response kinds it may receive, and a
 * scripted stream object whose `Send` and `Recv` succeed or fail as scripted.
 */
module Transport {
  import opened Wrappers
  import opened Descriptors

  /** The `message_request` oneof variants the client uses. */
  datatype MessageRequest =
    | ListServices(listServices: string)
    | FileContainingSymbol(symbol: string)

  datatype Request = Request(host: string, messageRequest: MessageRequest)

  /** One `ServiceResponse` entry of a list-services response. */
  datatype ServiceResponse = ServiceResponse(name: string)

  /** The `message_response` oneof variants a server may send. */
  datatype Response =
    | ListServicesResponse(service: seq<ServiceResponse>)
    | FileDescriptorResponse(fileDescriptorProto: seq<Blob>)
    | AllExtensionNumbersResponse(baseTypeName: string, extensionNumber: seq<int>)
    | ErrorResponse(errorCode: int, errorMessage: string)

  /**
   * A snapshot of the stream: the scripted outcome of each coming `Send`
   * (`Some(e)` fails with `e`; once the script is used up every send
   * succeeds), the scripted outcome of each coming `Recv` (once used up the
   * stream is at its end), and the requests delivered so far.
   */
  datatype StreamState = StreamState(
    sendOutcomes: seq<Option<string>>,
    recvOutcomes: seq<Result<Response, string>>,
    sent: seq<Request>)

  /** A result together with the stream state it leaves behind. */
  datatype Exchange<T> = Exchange(result: T, after: StreamState)

  /** The error `Recv` reports once the server has closed the stream. */
  const EndOfStream := "EOF"

  function SendStep(st: StreamState, req: Request): (x: Exchange<Option<string>>)
    ensures x.result.None? ==> x.after.sent == st.sent + [req]
    ensures x.result.Some? ==> x.after.sent == st.sent
    ensures x.after.recvOutcomes == st.recvOutcomes
  {
    if st.sendOutcomes != [] && st.sendOutcomes[0].Some? then
      Exchange(st.sendOutcomes[0], st.(sendOutcomes := st.sendOutcomes[1..]))
    else
      Exchange(None, st.(sendOutcomes := if st.sendOutcomes == [] then [] else st.sendOutcomes[1..],
                         sent := st.sent + [req]))
  }

  function RecvStep(st: StreamState): (x: Exchange<Result<Response, string>>)
    ensures st.recvOutcomes == [] ==> x == Exchange(Err(EndOfStream), st)
    ensures st.recvOutcomes != [] ==> x.result == st.recvOutcomes[0] && x.after.recvOutcomes == st.recvOutcomes[1..]
    ensures x.after.sent == st.sent && x.after.sendOutcomes == st.sendOutcomes
  {
    if st.recvOutcomes == [] then Exchange(Err(EndOfStream), st)
    else Exchange(st.recvOutcomes[0], st.(recvOutcomes := st.recvOutcomes[1..]))
  }

  /** `ref.ServerReflection_ServerReflectionInfoClient`, with a scripted server behind it. */
  class ReflectionStream {
    var sendOutcomes: seq<Option<string>>
    var recvOutcomes: seq<Result<Response, string>>
    var sent: seq<Request>

    constructor (sendOutcomes: seq<Option<string>>, recvOutcomes: seq<Result<Response, string>>)
      ensures State() == StreamState(sendOutcomes, recvOutcomes, [])
    {
      this.sendOutcomes := sendOutcomes;
      this.recvOutcomes := recvOutcomes;
      this.sent := [];
    }

    function State(): StreamState
      reads this
    {
      StreamState(sendOutcomes, recvOutcomes, sent)
    }

    /** `stream.Send(req)`: returns the error, or nil once the request is on its way. */
    method Send(req: Request) returns (err: Option<string>)
      modifies this
      ensures Exchange(err, State()) == SendStep(old(State()), req)
    {
      if sendOutcomes != [] && sendOutcomes[0].Some? {
        err := sendOutcomes[0];
        sendOutcomes := sendOutcomes[1..];
      } else {
        err := None;
        if sendOutcomes != [] {
          sendOutcomes := sendOutcomes[1..];
        }
        sent := sent + [req];
      }
    }

    /** `stream.Recv()`: the next response, or the error that ended the stream. */
    method Recv() returns (resp: Result<Response, string>)
      modifies this
      ensures Exchange(resp, State()) == RecvStep(old(State()))
    {
      if recvOutcomes == [] {
        resp := Err(EndOfStream);
      } else {
        resp := recvOutcomes[0];
        recvOutcomes := recvOutcomes[1..];
      }
    }
  }
}
