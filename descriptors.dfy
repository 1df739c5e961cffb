/**
 * The decoded shape of a `FileDescriptorProto` that the client reads, the
 * wire blobs it is decoded from, and the projected `serviceMethod` record.
 */
module Descriptors {
  import opened Wrappers

  newtype Byte = b: int | 0 <= b < 256

  /** One binary-encoded `FileDescriptorProto`, as carried in a reflection response. */
  type Blob = seq<Byte>

  /**
   * A method descriptor. The streaming flags are optional on the wire:
   * `None` stands for a nil `*bool`.
   */
  datatype MethodDescriptor = MethodDescriptor(
    name: string,
    inputType: string,
    outputType: string,
    clientStreaming: Option<bool>,
    serverStreaming: Option<bool>)

  datatype ServiceDescriptor = ServiceDescriptor(name: string, methods: seq<MethodDescriptor>)

  datatype FileDescriptor = FileDescriptor(package: string, services: seq<ServiceDescriptor>)

  /** `proto.Unmarshal` into a `FileDescriptorProto`: a partial decoder supplied from outside. */
  type Decoder = Blob -> Option<FileDescriptor>

  /** The `serviceMethod` record (`Service`, `Method`, `LongMethod`); an empty `longMethod` is the Go zero value. */
  datatype ServiceMethod = ServiceMethod(service: string, methodName: string, longMethod: string)
}
