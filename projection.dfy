/**
 * `serviceMethodsFromDescriptor`: flattening decoded file descriptors into
 * one `serviceMethod` record per (file, service, method), in nesting order.
 */
module Projection {
  import opened Wrappers
  import opened Descriptors
  import opened Signature

  /** The record built for one method of service `service` (already qualified by its package). */
  function Record(service: string, m: MethodDescriptor, verbose: bool): ServiceMethod
  {
    ServiceMethod(service, m.name, if verbose then Render(PartsOf(m)) else "")
  }

  /** `*desc.Package + "." + *service.Name`. */
  function Qualified(package: string, s: ServiceDescriptor): string
  {
    package + "." + s.name
  }

  function FromMethods(service: string, ms: seq<MethodDescriptor>, verbose: bool): seq<ServiceMethod>
  {
    if ms == [] then [] else FromMethods(service, ms[..|ms| - 1], verbose) + [Record(service, ms[|ms| - 1], verbose)]
  }

  function FromServices(package: string, ss: seq<ServiceDescriptor>, verbose: bool): seq<ServiceMethod>
  {
    if ss == [] then []
    else
      var last := ss[|ss| - 1];
      FromServices(package, ss[..|ss| - 1], verbose) + FromMethods(Qualified(package, last), last.methods, verbose)
  }

  /** The records of all files, in file, then service, then method order. */
  function FromFiles(fs: seq<FileDescriptor>, verbose: bool): seq<ServiceMethod>
  {
    if fs == [] then []
    else
      var last := fs[|fs| - 1];
      FromFiles(fs[..|fs| - 1], verbose) + FromServices(last.package, last.services, verbose)
  }

  /** The number of methods in a list of services. */
  function ServicesMethodCount(ss: seq<ServiceDescriptor>): nat
  {
    if ss == [] then 0 else ServicesMethodCount(ss[..|ss| - 1]) + |ss[|ss| - 1].methods|
  }

  /** The number of methods in a list of files. */
  function MethodCount(fs: seq<FileDescriptor>): nat
  {
    if fs == [] then 0 else MethodCount(fs[..|fs| - 1]) + ServicesMethodCount(fs[|fs| - 1].services)
  }

  lemma FromMethodsSnoc(service: string, ms: seq<MethodDescriptor>, verbose: bool, k: nat)
    requires k < |ms|
    ensures FromMethods(service, ms[..k + 1], verbose) == FromMethods(service, ms[..k], verbose) + [Record(service, ms[k], verbose)]
  {
    assert ms[..k + 1][..k] == ms[..k];
  }

  lemma FromServicesSnoc(package: string, ss: seq<ServiceDescriptor>, verbose: bool, j: nat)
    requires j < |ss|
    ensures FromServices(package, ss[..j + 1], verbose)
         == FromServices(package, ss[..j], verbose) + FromMethods(Qualified(package, ss[j]), ss[j].methods, verbose)
  {
    assert ss[..j + 1][..j] == ss[..j];
  }

  lemma FromFilesSnoc(fs: seq<FileDescriptor>, verbose: bool, i: nat)
    requires i < |fs|
    ensures FromFiles(fs[..i + 1], verbose) == FromFiles(fs[..i], verbose) + FromServices(fs[i].package, fs[i].services, verbose)
  {
    assert fs[..i + 1][..i] == fs[..i];
  }

  /**
   * `serviceMethodsFromDescriptor`, with the global `-l` flag passed in as
   * `verbose`. The two inner loops of the source are the two methods below.
   */
  method ServiceMethodsFromDescriptor(descs: seq<FileDescriptor>, verbose: bool) returns (sm: seq<ServiceMethod>)
    ensures sm == FromFiles(descs, verbose)
  {
    sm := [];
    for i := 0 to |descs|
      invariant sm == FromFiles(descs[..i], verbose)
    {
      FromFilesSnoc(descs, verbose, i);
      sm := AppendFile(sm, descs[i], verbose);
    }
    assert descs[..|descs|] == descs;
  }

  /** `for _, service := range desc.Service { ... }`: appends the records of one file. */
  method AppendFile(sm0: seq<ServiceMethod>, desc: FileDescriptor, verbose: bool) returns (sm: seq<ServiceMethod>)
    ensures sm == sm0 + FromServices(desc.package, desc.services, verbose)
  {
    sm := sm0;
    for j := 0 to |desc.services|
      invariant sm == sm0 + FromServices(desc.package, desc.services[..j], verbose)
    {
      FromServicesSnoc(desc.package, desc.services, verbose, j);
      var added := FromMethods(Qualified(desc.package, desc.services[j]), desc.services[j].methods, verbose);
      ConcatAssociative(sm0, FromServices(desc.package, desc.services[..j], verbose), added);
      sm := AppendService(sm, desc.package, desc.services[j], verbose);
    }
    assert desc.services[..|desc.services|] == desc.services;
  }

  /** `for _, method := range service.Method { ... }`: appends one record per method of one service. */
  method AppendService(sm0: seq<ServiceMethod>, package: string, service: ServiceDescriptor, verbose: bool)
    returns (sm: seq<ServiceMethod>)
    ensures sm == sm0 + FromMethods(Qualified(package, service), service.methods, verbose)
  {
    sm := sm0;
    for k := 0 to |service.methods|
      invariant sm == sm0 + FromMethods(Qualified(package, service), service.methods[..k], verbose)
    {
      var md := service.methods[k];
      var m := ServiceMethod(package + "." + service.name, md.name, "");
      if verbose {
        var long := DumpMethodAsProto(md);
        m := m.(longMethod := long);
      }
      assert m == Record(Qualified(package, service), md, verbose);
      FromMethodsSnoc(Qualified(package, service), service.methods, verbose, k);
      ConcatAssociative(sm0, FromMethods(Qualified(package, service), service.methods[..k], verbose), [m]);
      sm := sm + [m];
    }
    assert service.methods[..|service.methods|] == service.methods;
  }

  /** One record per method, in method order. */
  lemma {:induction false} FromMethodsAt(service: string, ms: seq<MethodDescriptor>, verbose: bool)
    ensures |FromMethods(service, ms, verbose)| == |ms|
    ensures forall k :: 0 <= k < |ms| ==> FromMethods(service, ms, verbose)[k] == Record(service, ms[k], verbose)
    decreases |ms|
  {
    if ms != [] {
      FromMethodsAt(service, ms[..|ms| - 1], verbose);
    }
  }

  lemma {:induction false} FromServicesLength(package: string, ss: seq<ServiceDescriptor>, verbose: bool)
    ensures |FromServices(package, ss, verbose)| == ServicesMethodCount(ss)
    decreases |ss|
  {
    if ss != [] {
      FromServicesLength(package, ss[..|ss| - 1], verbose);
      FromMethodsAt(Qualified(package, ss[|ss| - 1]), ss[|ss| - 1].methods, verbose);
    }
  }

  /** One record per (file, service, method): the length is the total method count. */
  lemma {:induction false} FromFilesLength(fs: seq<FileDescriptor>, verbose: bool)
    ensures |FromFiles(fs, verbose)| == MethodCount(fs)
    decreases |fs|
  {
    if fs != [] {
      FromFilesLength(fs[..|fs| - 1], verbose);
      FromServicesLength(fs[|fs| - 1].package, fs[|fs| - 1].services, verbose);
    }
  }

  lemma {:induction false} FromServicesAt(package: string, ss: seq<ServiceDescriptor>, verbose: bool, j: nat, k: nat)
    requires j < |ss| && k < |ss[j].methods|
    ensures ServicesMethodCount(ss[..j]) + k < |FromServices(package, ss, verbose)|
    ensures FromServices(package, ss, verbose)[ServicesMethodCount(ss[..j]) + k]
         == Record(Qualified(package, ss[j]), ss[j].methods[k], verbose)
    decreases |ss|
  {
    var init := ss[..|ss| - 1];
    FromServicesLength(package, init, verbose);
    if j == |ss| - 1 {
      assert ss[..j] == init;
      FromMethodsAt(Qualified(package, ss[j]), ss[j].methods, verbose);
    } else {
      assert init[..j] == ss[..j];
      FromServicesAt(package, init, verbose, j, k);
    }
  }

  /** The records of `fs` are those of the files before `fs[i]`, then those of `fs[i]`, then the rest. */
  lemma FromFilesSplit(fs: seq<FileDescriptor>, verbose: bool, i: nat)
    requires i < |fs|
    ensures FromFiles(fs, verbose)
         == FromFiles(fs[..i], verbose) + (FromServices(fs[i].package, fs[i].services, verbose) + FromFiles(fs[i + 1..], verbose))
  {
    assert fs == fs[..i] + ([fs[i]] + fs[i + 1..]);
    FromFilesAppend(fs[..i], [fs[i]] + fs[i + 1..], verbose);
    FromFilesAppend([fs[i]], fs[i + 1..], verbose);
    assert [fs[i]][..0] == [];
    var own := FromServices(fs[i].package, fs[i].services, verbose);
    assert FromFiles([fs[i]], verbose) == [] + own;
    assert [] + own == own;
  }

  lemma FromFilesRecordAt(fs: seq<FileDescriptor>, verbose: bool, i: nat, j: nat, k: nat)
    requires i < |fs| && j < |fs[i].services| && k < |fs[i].services[j].methods|
    ensures MethodCount(fs[..i]) + ServicesMethodCount(fs[i].services[..j]) + k < |FromFiles(fs, verbose)|
    ensures FromFiles(fs, verbose)[MethodCount(fs[..i]) + ServicesMethodCount(fs[i].services[..j]) + k]
         == Record(Qualified(fs[i].package, fs[i].services[j]), fs[i].services[j].methods[k], verbose)
  {
    var before := FromFiles(fs[..i], verbose);
    var own := FromServices(fs[i].package, fs[i].services, verbose);
    var after := FromFiles(fs[i + 1..], verbose);
    FromFilesSplit(fs, verbose, i);
    FromFilesLength(fs[..i], verbose);
    FromServicesAt(fs[i].package, fs[i].services, verbose, j, k);
    var offset := ServicesMethodCount(fs[i].services[..j]) + k;
    assert (own + after)[offset] == own[offset];
    assert (before + (own + after))[|before| + offset] == (own + after)[offset];
  }

  /**
   * Position and content of every record: the k-th method of the j-th
   * service of the i-th file sits after all methods of earlier files and
   * services, with `Service == package + "." + serviceName`,
   * `Method == methodName`, and `LongMethod` the rendered signature when
   * verbose and empty otherwise.
   */
  lemma FromFilesAt(fs: seq<FileDescriptor>, verbose: bool, i: nat, j: nat, k: nat)
    requires i < |fs| && j < |fs[i].services| && k < |fs[i].services[j].methods|
    ensures MethodCount(fs[..i]) + ServicesMethodCount(fs[i].services[..j]) + k < |FromFiles(fs, verbose)|
    ensures var r := FromFiles(fs, verbose)[MethodCount(fs[..i]) + ServicesMethodCount(fs[i].services[..j]) + k];
      && r.service == fs[i].package + "." + fs[i].services[j].name
      && r.methodName == fs[i].services[j].methods[k].name
      && r.longMethod == (if verbose then Render(PartsOf(fs[i].services[j].methods[k])) else "")
  {
    FromFilesRecordAt(fs, verbose, i, j, k);
  }

  /** Files contribute their records independently and in order. */
  lemma {:induction false} FromFilesAppend(a: seq<FileDescriptor>, b: seq<FileDescriptor>, verbose: bool)
    ensures FromFiles(a + b, verbose) == FromFiles(a, verbose) + FromFiles(b, verbose)
    decreases |b|
  {
    if b == [] {
      assert a + b == a;
    } else {
      var bi := b[..|b| - 1];
      assert (a + b)[..|a + b| - 1] == a + bi;
      assert (a + b)[|a + b| - 1] == b[|b| - 1];
      FromFilesAppend(a, bi, verbose);
      assert FromFiles(a + b, verbose) == FromFiles(a + bi, verbose) + FromServices(b[|b| - 1].package, b[|b| - 1].services, verbose);
    }
  }

  /** A record with its `LongMethod` cleared. */
  function Terse(sm: seq<ServiceMethod>): (r: seq<ServiceMethod>)
    ensures |r| == |sm|
  {
    seq(|sm|, p requires 0 <= p < |sm| => sm[p].(longMethod := ""))
  }

  lemma TerseAppend(a: seq<ServiceMethod>, b: seq<ServiceMethod>)
    ensures Terse(a + b) == Terse(a) + Terse(b)
  {
  }

  lemma {:induction false} TerseServices(package: string, ss: seq<ServiceDescriptor>)
    ensures FromServices(package, ss, false) == Terse(FromServices(package, ss, true))
    decreases |ss|
  {
    if ss != [] {
      var last := ss[|ss| - 1];
      TerseServices(package, ss[..|ss| - 1]);
      FromMethodsAt(Qualified(package, last), last.methods, false);
      FromMethodsAt(Qualified(package, last), last.methods, true);
      assert FromMethods(Qualified(package, last), last.methods, false) == Terse(FromMethods(Qualified(package, last), last.methods, true));
      TerseAppend(FromServices(package, ss[..|ss| - 1], true), FromMethods(Qualified(package, last), last.methods, true));
    }
  }

  /**
   * Verbose mode only fills in `LongMethod`: without it every `LongMethod`
   * is empty, and `Service` and `Method` are the same record for record.
   */
  lemma {:induction false} VerboseOnlyAddsLongMethod(fs: seq<FileDescriptor>)
    ensures FromFiles(fs, false) == Terse(FromFiles(fs, true))
    ensures forall p :: 0 <= p < |FromFiles(fs, false)| ==> FromFiles(fs, false)[p].longMethod == ""
    decreases |fs|
  {
    if fs != [] {
      var last := fs[|fs| - 1];
      VerboseOnlyAddsLongMethod(fs[..|fs| - 1]);
      TerseServices(last.package, last.services);
      TerseAppend(FromFiles(fs[..|fs| - 1], true), FromServices(last.package, last.services, true));
    }
  }
}
