# go-grpc-cli: a verified model of the reflection client's core

`go-grpc-cli` is a command-line client for gRPC servers that support the
server reflection service (`grpc.reflection.v1alpha.ServerReflection`, the
bidirectional `ServerReflectionInfo` RPC). It has three commands:

- `ls` lists the services a server exposes;
- `lsm` lists every method of every service as `Service.Method`, and with
  `-l` also the method's signature `rpc Name(stream In) returns (stream Out){}`;
- `find_method` prints the methods whose name contains the `-method` term,
  and exits with 0 if anything matched and 1 if nothing did.

This project models the logic between the reflection stream and the printed
output, all of it from `main.go`, and proves properties of it:

- **Signature rendering** (`Signature`): `trimDotFunc` and `dumpMethodAsProto`.
  A parser reads the pieces back out of a rendered signature. For names with
  no parenthesis and no space, it is proved to invert the rendering both ways.
- **Descriptor flattening** (`Projection`): `serviceMethodsFromDescriptor`, with
  the global `-l` flag passed in as `verbose`. It gives one record per
  (file, service, method), in nesting order. Each record's position and
  fields are proved, and so is the claim that `verbose` only adds `LongMethod`.
- **The reflection exchange** (`Transport`, `Reflection`):
  - the stream is a class over a scripted server, with two queues of
    outcomes (one for sends, one for receives) and a log of the requests sent;
  - `getServerServices`, `getFileDescriptorProto` and `getServiceMethods` are
    methods on that stream;
  - each method is proved equal to a function of the stream's state;
  - lemmas on those functions cover request order, one request and one
    response per service, in-order concatenation, and abort on the first
    failure with no partial result.
- **Text rendering** (`Text`): `serverServices.String` and
  `serviceMethods.String`, with a line splitter that reads the text back.
- **The command switch** (`Find`, `Command`):
  - the `find_method` filter and its `found` flag;
  - the switch of `main`, modelled as an outcome plus an exit status.
- **`authType`** (`TlsAuth`): the switch as written, with a corrected variant.
  See "Findings".

Supporting modules: `Wrappers` holds `Option` and `Result`. `GoStrings`
models the parts of Go's `strings` package the program uses: `TrimLeftFunc`
and `Index`. `Descriptors` holds the descriptor data model and the
`serviceMethod` record.

Modelling choices:

- `proto.Unmarshal` is a parameter `decode: Blob -> Option<FileDescriptor>`.
- Each failure becomes a value of the `Error` datatype:
  - a send or receive error is `TransportError`;
  - a blob that does not decode is `DecodeError(index)`;
  - a reply that is the wrong kind of response is `NilDereference`.
- A wrong-kind reply is its own error because the Go code then reads a field
  through the nil pointer that `GetListServicesResponse()` or
  `GetFileDescriptorResponse()` returns. That panics.
- A `Recv` on an exhausted script fails with `EOF`.
- `log.Fatal` and `log.Fatalf` exit with status 1. A Go panic exits with
  status 2. Both become values of `Command.Outcome`, read through
  `Command.ExitStatus`.

## Model

| member | source | states |
|---|---|---|
| `GoStrings.TrimLeftFunc` | main.go:55 | the result is a suffix of the input, every dropped character satisfies the predicate, and the result does not start with one that does |
| `GoStrings.Index` | main.go:290 | `strings.Index` is not -1 exactly when the term is a substring, and it is then the first character offset where the term occurs (Go counts bytes; only the test against -1 is read) |
| `Signature.IsDot` | main.go:42-44 | `trimDotFunc`: exactly the character `.` is trimmed |
| `Signature.TrimDots` | main.go:42-44 | trimming with `trimDotFunc` leaves a suffix of the type name with no leading `.`, and only dots were removed |
| `Signature.TrimDotsExactly` | main.go:42-44 | any number of leading dots before a dot-free head is removed, and the rest, inner dots included, is kept |
| `Signature.TrimDotsNoLeadingDot` | main.go:55 | a name that does not start with `.` is returned unchanged |
| `Signature.TrimDotsIdempotent` | main.go:61 | trimming twice is trimming once |
| `Signature.TrimDotsExamples` | main.go:55 | `.pkg.Req` becomes `pkg.Req`, `.pkg.Res` becomes `pkg.Res`, and `pkg..Req` is unchanged |
| `Signature.DumpMethodAsProto` | main.go:46-65 | the buffer holds exactly `rpc `, the name, `(`, `stream ` if client streaming is set and true, the trimmed input type, `) returns (`, `stream ` if server streaming is set and true, the trimmed output type, and `){}` |
| `Signature.ParseRender` | main.go:46-65 | for names with no parenthesis and no space, parsing the rendered signature gives back the name, both streaming flags and both type names, so the rendering loses nothing |
| `Signature.RenderParse` | main.go:46-65 | every string the parser accepts is exactly the rendering of what it parsed |
| `Signature.SignatureDeterminesMethod` | main.go:51-61 | for names with no parenthesis and no space, with a nil streaming flag read as false: the rendered text determines the name, whether each flag is set and true, and the trimmed types |
| `Signature.ClientStreamingExample` | main.go:51-53 | a client-streaming method renders as `rpc Do(stream pkg.Req) returns (pkg.Res){}` |
| `Signature.UnaryExample` | main.go:58-60 | with both flags nil, no `stream` appears: `rpc Do(pkg.Req) returns (pkg.Res){}` |
| `Projection.ServiceMethodsFromDescriptor` | main.go:177-195 | the loops build exactly the records of the specification `FromFiles`, in file, service, method order |
| `Projection.AppendFile` | main.go:180-191 | the loop over one file's services appends that file's records after the ones already built |
| `Projection.AppendService` | main.go:181-190 | the loop over one service's methods appends one record per method, with `Service` equal to package + `.` + service name, and `LongMethod` set only when verbose |
| `Projection.FromMethodsAt` | main.go:181-189 | one record per method, the k-th built from the k-th method |
| `Projection.FromServicesLength` | main.go:180-191 | a file contributes as many records as its services have methods |
| `Projection.FromFilesLength` | main.go:177-195 | the result has exactly one record per (file, service, method) triple |
| `Projection.FromServicesAt` | main.go:180-191 | the k-th method of the j-th service sits after the methods of the earlier services |
| `Projection.FromFilesSplit` | main.go:179-193 | the records of a file sit after those of the earlier files and before those of the later ones |
| `Projection.FromFilesRecordAt` | main.go:179-193 | the k-th method of the j-th service of the i-th file is the record at offset (methods of earlier files) + (methods of earlier services) + k |
| `Projection.FromFilesAt` | main.go:182-188 | that record has `Service == package + "." + serviceName` and `Method == methodName`, and its `LongMethod` is the rendered signature when verbose and empty otherwise |
| `Projection.FromFilesAppend` | main.go:179-193 | files contribute records independently and in order: the records of `a + b` are those of `a` followed by those of `b` |
| `Projection.TerseServices` | main.go:186-188 | for one file, the non-verbose records are the verbose ones with `LongMethod` cleared |
| `Projection.VerboseOnlyAddsLongMethod` | main.go:182-188 | verbose mode changes no `Service` and no `Method`, and without it every `LongMethod` is empty |
| `Text.ServerServicesString` | main.go:110-117 | the text is each name followed by a newline, in order |
| `Text.ServiceMethodsString` | main.go:197-211 | the text is, for each record in order, `Service.Method` and a newline, then `LongMethod` and a newline only when `LongMethod` is not empty |
| `Text.EntryText` | main.go:200-208 | the text of one record is its one or two lines, each ending in a newline |
| `Text.JoinLinesAppend` | main.go:112-115 | the text of a concatenation of lines is the concatenation of their texts |
| `Text.LinesJoinLines` | main.go:112-115 | splitting newline-joined lines that hold no newline gives the lines back |
| `Text.JoinLinesLines` | main.go:112-115 | joining the lines of empty or newline-terminated text gives the text back |
| `Text.ServicesTextRoundTrip` | main.go:110-117 | when no name holds a newline, the service listing read back line by line is the list of names |
| `Text.TerseListing` | main.go:200-204 | without long methods, the listing has exactly one `Service.Method` line per record, in order |
| `Text.AllLinesCount` | main.go:205-208 | the listing has one line per record plus one for each record whose `LongMethod` is set |
| `Text.AllLinesPlain` | main.go:197-211 | if no field holds a newline, no line of the listing does |
| `Text.MethodsTextRoundTrip` | main.go:197-211 | when no field holds a newline, the method listing read back line by line gives exactly the lines of each record, in order |
| `Transport.SendStep` | main.go:124-130 | a successful send appends the request to the log, a failed one logs nothing, and neither consumes a response |
| `Transport.RecvStep` | main.go:132-135 | a receive consumes the next scripted response, and an exhausted script yields `EOF` and changes nothing |
| `Transport.ReflectionStream.Send` | main.go:124-130 | the stream's new state and the error returned are those of `SendStep` |
| `Transport.ReflectionStream.Recv` | main.go:132-135 | the stream's new state and the response returned are those of `RecvStep` |
| `Reflection.ListServicesSpec` | main.go:123-142 | sends one list-services request; a send or receive error is returned as that `TransportError` (`EOF` once the script is used up), a reply of the wrong kind is `NilDereference`; the result is a list exactly when the reply is a list-services response; a list consumes one response |
| `Reflection.ListServicesNames` | main.go:137-141 | a list-services reply yields its entries' names in reply order, same length, no sorting or deduplication; an empty list is an empty result, not an error |
| `Reflection.DecodeAll` | main.go:158-166 | the result is a list exactly when every blob decodes, and then holds one descriptor per blob in order; otherwise the error names the first blob that fails, and no partial list is returned |
| `Reflection.FetchSpec` | main.go:144-167 | sends one file-containing-symbol request; a send or receive error is returned; a reply of another kind is a nil dereference; success consumes one response |
| `Reflection.FetchDecodesReply` | main.go:158-166 | a file-descriptor reply yields exactly the decoding of its blobs |
| `Reflection.GetServerServices` | main.go:123-142 | the method's result and the stream's new state are those of `ListServicesSpec` |
| `Reflection.GetFileDescriptorProto` | main.go:144-167 | the method's result and the stream's new state are those of `FetchSpec` |
| `Reflection.GetServiceMethods` | main.go:229-245 | the method's result and the stream's new state are: list services, fetch for each listed service in turn, then flatten |
| `Reflection.FetchAllSpec` | main.go:234-241 | the loop over the listed services: requests are only ever appended to the log, and at most one is sent per service |
| `Reflection.ServiceMethodsSpec` | main.go:229-245 | `getServiceMethods` succeeds only when listing the services succeeded; it only appends requests, at most one list-services request plus one per listed service |
| `Reflection.FetchAllCompose` | main.go:234-241 | fetching for `a + b` is fetching for `a`, then for `b` from where `a` left the stream, with the results concatenated in service order |
| `Reflection.FetchAllStep` | main.go:235-241 | one loop iteration either extends the accumulated descriptors by one fetch or ends the whole fetch with that fetch's error |
| `Reflection.FetchAllSingle` | main.go:236-240 | fetching for one service is one `getFileDescriptorProto` exchange |
| `Reflection.FetchAllAbort` | main.go:236-239 | after a failure no further service is fetched: what was accumulated is discarded and the stream is left as the failure left it |
| `Reflection.FetchAllRequests` | main.go:235-241 | a successful fetch sends one file-containing-symbol request per service, in enumeration order, and consumes one response each |
| `Reflection.ServiceMethodsRequests` | main.go:229-245 | a successful `getServiceMethods` sends one list-services request, then one symbol request per listed service, in the order listed |
| `Reflection.ServiceMethodsListFailure` | main.go:230-233 | a failed list-services exchange ends `getServiceMethods` with an error before any symbol request is sent |
| `Find.FindMatches` | main.go:288-298 | the loop prints exactly the records of `Matches`, and the status is 0 if something was printed and 1 otherwise |
| `Find.MatchesMembership` | main.go:289-293 | a record is printed exactly when it is one of the records and its method name contains the term |
| `Find.MatchesAppend` | main.go:289-294 | matching keeps the original order, piece by piece |
| `Find.FoundIffSomeMatch` | main.go:295-298 | something is printed exactly when some method name contains the term |
| `Find.MissingFirstChar` | main.go:290 | a term whose first character is absent from the method name does not match |
| `Find.FindExample` | main.go:288-294 | the term `Get` over `GetUser`, `SetUser`, `GetOrder` prints `GetUser` and `GetOrder`, in that order |
| `Find.NotFoundExample` | main.go:295-298 | the term `Get` over `SetUser` alone prints nothing |
| `Command.ExitStatus` | main.go:268-300 | a listing returns from `main` with 0, `find_method` exits with the status it computed, a nil-dereference panic exits with 2, and every `log.Fatal` or `log.Fatalf` exits with 1 |
| `Command.RunSpec` | main.go:264-301 | an unknown command and an empty `find_method` term end the run before the stream is touched |
| `Command.RunCommand` | main.go:264-301 | the method's outcome and the stream's new state are those of `RunSpec` |
| `Command.StatusOf` | main.go:295-300 | exit statuses are 0, 1 or 2; 2 means exactly a nil-dereference crash; a search exits with 0 exactly when it printed something |
| `Command.RunExitStatus` | main.go:264-301 | every run exits with 0, 1 or 2; with 2 exactly when it crashed on a nil dereference; a search exits with 0 exactly when it printed something |
| `Command.FindOutcome` | main.go:278-298 | with a non-empty term and a successful enumeration, `find_method` prints exactly the methods whose name contains the term, and exits with 0 exactly when one does |
| `Command.FindFiltersListing` | main.go:271-294 | `find_method` makes the same exchange as `lsm`, fails when it fails, and prints the matching subset of its listing in order |
| `Command.ListFailureIsFatal` | main.go:265-286 | a failed list-services exchange ends every command that reaches the stream fatally, with that error, nothing listed, no symbol request sent and a non-zero status |
| `Command.NotFoundSharesFatalStatus` | main.go:298 | a search that finds nothing exits with the same status as a fatal transport error |
| `TlsAuth.AuthTypeAsWritten` | main.go:67-80 | `request_client_cert` and `verify_client_cert_if_given` select their policies; both `require_any_client_cert` and `require_and_verify_client_cert` select `RequireAndVerifyClientCert`; every other string, the empty one included, selects `NoClientCert` |
| `TlsAuth.AuthType` | main.go:67-80 | the corrected switch: a policy other than `NoClientCert` is selected only by its own name, and a string naming none selects `NoClientCert` |
| `TlsAuth.AuthTypeRoundTrip` | main.go:67-80 | with the correction, every policy is selected by its name as the switch recognises it, and the empty default selects `NoClientCert` |
| `TlsAuth.HelpTextNames` | main.go:27 | the help text corrected: the first four options as written, and the fifth `require_and_verify_client` completed to `require_and_verify_client_cert` |
| `TlsAuth.HelpTextTruncatedOption` | main.go:27 | the help text's last option, `require_and_verify_client`, is not the name of `RequireAndVerifyClientCert`, and selects `NoClientCert` under both switches |
| `TlsAuth.HelpTextSelectsListedPolicies` | main.go:27 | with the help text corrected, every policy is listed, and each option selects the policy it names under the corrected switch |
| `TlsAuth.AuthTypeInjective` | main.go:67-80 | with the correction, two different strings that each select a policy other than `NoClientCert` select different policies |
| `TlsAuth.AsWrittenMisreadsRequireAny` | main.go:71-72 | as written, `require_any_client_cert` selects the stricter `RequireAndVerifyClientCert`, `RequireAnyClientCert` is never selected, and every other string is read as in the correction |

## Left out

- Flag parsing and `init` (main.go:22-40) are left out. The command name, the search term, the `-l` flag (`verbose`) and the auth-type string are parameters.
- `tlsConfig` (main.go:82-106) loads key pairs and CA files from disk and builds certificate pools. That is file I/O and crypto library code. Only its call to `authType` is modelled.
- `grpc.Dial`, client creation and `ServerReflectionInfo` (main.go:248-263) are network plumbing. The model starts from an open stream, so a failure to dial or open the stream is not modelled. The `address` flag is not modelled either.
- `proto.Unmarshal` and the wire format of `FileDescriptorProto` are a foreign library. The decoder is an abstract parameter.
- `printResult` and the `MarshalJSON` methods (main.go:119-121, 213-227) are JSON encoding and logging. Outcomes carry the values that would be printed, and `Text` gives the plain-text form. `printResult`'s plain-text format `%s\n` adds a final newline after the text's own, and a `serviceMethod` struct is formatted with `%s`; neither is modelled.
- `log.Fatal` and `os.Exit` are modelled as returned outcomes and statuses, not as process termination. So are panics.
- Strings are sequences of Unicode characters, while Go strings are bytes. `GoStrings.Index` therefore returns a character offset where Go returns a byte offset, and strings that are not valid UTF-8 (possible in Go for command-line arguments and proto2 string fields) cannot be represented. The program reads `strings.Index` only through the test against -1 (main.go:290), which gives the same answer for valid UTF-8.
- Descriptor string fields (`Name`, `Package`, `InputType`, `OutputType`) are always present in the model. The Go code dereferences them without a check, and a nil one would panic. The streaming flags are optional, as in the source.
- The stream's concurrency, contexts and deadlines, and the `Host` field's meaning on the server side are left out. Each request is sent with host `localhost`, and the stream is driven sequentially, as the source drives it.
- Projection.ServiceMethodsFromDescriptor: the source's three nested loops are one loop here, whose body calls `AppendFile`, whose loop body calls `AppendService`. Each inner loop became a method so that the proof of each stays small. The appends and their order are unchanged.
- The exit status of `find_method` when nothing matches (1) equals that of `log.Fatal` (1), so a caller cannot tell "not found" from a failure by the status alone. The model follows the code, and `Command.NotFoundSharesFatalStatus` states the overlap.

## Findings

| source | as written | input that shows it | evidently intended | confidence | as-written member | corrected member |
|---|---|---|---|---|---|---|
| main.go:71-72 | `case "require_any_client_cert": return tls.RequireAndVerifyClientCert` | `-use_tls -tls_auth_type require_any_client_cert` selects `RequireAndVerifyClientCert`, and no flag value selects `RequireAnyClientCert` | `return tls.RequireAnyClientCert`, the policy the flag value names and the help text at main.go:27 lists | high that the two policies differ; not executed | `TlsAuth.AsWrittenMisreadsRequireAny` | `TlsAuth.AuthTypeRoundTrip` |
| main.go:27 | the help text lists the fifth option as `require_and_verify_client` | `-use_tls -tls_auth_type require_and_verify_client`, copied from the help text, selects `NoClientCert` | the full name `require_and_verify_client_cert`, which the switch at main.go:75 recognises | high; not executed | `TlsAuth.HelpTextTruncatedOption` | `TlsAuth.HelpTextSelectsListedPolicies` |

`crypto/tls` documents `Config.ClientAuth` as the policy a server applies to
client certificates. On this client the configuration built by `tlsConfig` is
used to dial out, so both discrepancies likely have no effect on the connection.
