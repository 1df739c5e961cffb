/**
 * The plain-text renderings `serverServices.String` and
 * `serviceMethods.String`, and a line splitter that reads them back.
 */
module Text {
  import opened GoStrings
  import opened Descriptors

  /** Every line followed by a newline. */
  function JoinLines(lines: seq<string>): string
  {
    if lines == [] then "" else lines[0] + "\n" + JoinLines(lines[1..])
  }

  /** Splits text at its newlines; a final line without a newline is kept. */
  function Lines(s: string): seq<string>
    decreases |s|
  {
    if s == [] then []
    else
      var i := IndexOfChar(s, '\n');
      if i == |s| then [s] else [s[..i]] + Lines(s[i + 1..])
  }

  predicate NoNewline(line: string)
  {
    forall k :: 0 <= k < |line| ==> line[k] != '\n'
  }

  lemma {:induction false} JoinLinesAppend(a: seq<string>, b: seq<string>)
    ensures JoinLines(a + b) == JoinLines(a) + JoinLines(b)
    decreases |a|
  {
    if a != [] {
      assert (a + b)[1..] == a[1..] + b;
      JoinLinesAppend(a[1..], b);
    } else {
      assert a + b == b;
    }
  }

  /** Splitting joined lines gives the lines back, provided none holds a newline. */
  lemma {:induction false} LinesJoinLines(lines: seq<string>)
    requires forall l :: l in lines ==> NoNewline(l)
    ensures Lines(JoinLines(lines)) == lines
    decreases |lines|
  {
    if lines != [] {
      var rest := JoinLines(lines[1..]);
      assert lines[0] in lines;
      IndexOfCharAfter(lines[0], '\n', rest);
      var s := lines[0] + "\n" + rest;
      assert s[..|lines[0]|] == lines[0];
      assert s[|lines[0]| + 1..] == rest;
      LinesJoinLines(lines[1..]);
    }
  }

  /** Joining the lines of newline-terminated text gives the text back. */
  lemma {:induction false} JoinLinesLines(s: string)
    requires s == [] || s[|s| - 1] == '\n'
    ensures JoinLines(Lines(s)) == s
    decreases |s|
  {
    if s != [] {
      var i := IndexOfChar(s, '\n');
      assert i < |s|;
      assert s == s[..i] + "\n" + s[i + 1..];
      JoinLinesLines(s[i + 1..]);
    }
  }

  /** `serverServices.String`: each service name on its own line. */
  method ServerServicesString(ss: seq<string>) returns (text: string)
    ensures text == JoinLines(ss)
  {
    var b := "";
    for i := 0 to |ss|
      invariant b == JoinLines(ss[..i])
    {
      JoinLinesAppend(ss[..i], [ss[i]]);
      assert ss[..i + 1] == ss[..i] + [ss[i]];
      b := b + ss[i];
      b := b + "\n";
    }
    assert ss[..|ss|] == ss;
    text := b;
  }

  /** The printed lines of one record: `Service.Method`, then `LongMethod` when it is not empty. */
  function EntryLines(r: ServiceMethod): seq<string>
  {
    [r.service + "." + r.methodName] + (if |r.longMethod| > 0 then [r.longMethod] else [])
  }

  function AllLines(sm: seq<ServiceMethod>): seq<string>
  {
    if sm == [] then [] else AllLines(sm[..|sm| - 1]) + EntryLines(sm[|sm| - 1])
  }

  lemma EntryText(r: ServiceMethod)
    ensures JoinLines(EntryLines(r)) == r.service + "." + r.methodName + "\n"
      + (if |r.longMethod| > 0 then r.longMethod + "\n" else "")
  {
    var head := r.service + "." + r.methodName;
    if |r.longMethod| > 0 {
      assert EntryLines(r) == [head, r.longMethod];
      assert EntryLines(r)[1..] == [r.longMethod];
      assert JoinLines([r.longMethod]) == r.longMethod + "\n";
    } else {
      assert EntryLines(r) == [head];
      assert EntryLines(r)[1..] == [];
    }
  }

  /** `serviceMethods.String`. */
  method ServiceMethodsString(sm: seq<ServiceMethod>) returns (text: string)
    ensures text == JoinLines(AllLines(sm))
  {
    var b := "";
    for i := 0 to |sm|
      invariant b == JoinLines(AllLines(sm[..i]))
    {
      ghost var before := b;
      b := b + sm[i].service;
      b := b + ".";
      b := b + sm[i].methodName;
      b := b + "\n";
      if |sm[i].longMethod| > 0 {
        b := b + sm[i].longMethod;
        b := b + "\n";
      }
      assert b == before + JoinLines(EntryLines(sm[i])) by {
        EntryText(sm[i]);
      }
      assert JoinLines(AllLines(sm[..i + 1])) == before + JoinLines(EntryLines(sm[i])) by {
        assert sm[..i + 1][..i] == sm[..i];
        JoinLinesAppend(AllLines(sm[..i]), EntryLines(sm[i]));
      }
    }
    assert sm[..|sm|] == sm;
    text := b;
  }

  /** Reading the service listing back line by line gives the names in order. */
  lemma ServicesTextRoundTrip(ss: seq<string>)
    requires forall s :: s in ss ==> NoNewline(s)
    ensures Lines(JoinLines(ss)) == ss
  {
    LinesJoinLines(ss);
  }

  /**
   * Without long methods, the method listing is one `Service.Method` line per
   * record, in order.
   */
  lemma {:induction false} TerseListing(sm: seq<ServiceMethod>)
    requires forall p :: 0 <= p < |sm| ==> sm[p].longMethod == ""
    ensures AllLines(sm) == seq(|sm|, p requires 0 <= p < |sm| => sm[p].service + "." + sm[p].methodName)
    decreases |sm|
  {
    if sm != [] {
      TerseListing(sm[..|sm| - 1]);
    }
  }

  /** With long methods, each record adds a second line exactly when its `LongMethod` is set. */
  lemma {:induction false} AllLinesCount(sm: seq<ServiceMethod>)
    ensures |AllLines(sm)| == |sm| + |set p | 0 <= p < |sm| && sm[p].longMethod != ""|
    decreases |sm|
  {
    if sm != [] {
      var n := |sm| - 1;
      AllLinesCount(sm[..n]);
      var before := set p | 0 <= p < n && sm[..n][p].longMethod != "";
      var now := set p | 0 <= p < |sm| && sm[p].longMethod != "";
      if sm[n].longMethod != "" {
        assert now == before + {n};
      } else {
        assert now == before;
      }
    }
  }

  lemma {:induction false} AllLinesPlain(sm: seq<ServiceMethod>)
    requires forall p :: 0 <= p < |sm| ==>
      NoNewline(sm[p].service) && NoNewline(sm[p].methodName) && NoNewline(sm[p].longMethod)
    ensures forall l :: l in AllLines(sm) ==> NoNewline(l)
    decreases |sm|
  {
    if sm != [] {
      var r := sm[|sm| - 1];
      AllLinesPlain(sm[..|sm| - 1]);
      var head := r.service + "." + r.methodName;
      assert NoNewline(head) by {
        forall k | 0 <= k < |head| ensures head[k] != '\n' {
          if k < |r.service| {
            assert head[k] == r.service[k];
          } else if k > |r.service| {
            assert head[k] == r.methodName[k - |r.service| - 1];
          }
        }
      }
    }
  }

  /** Reading the method listing back line by line gives exactly the lines of each record, in order. */
  lemma MethodsTextRoundTrip(sm: seq<ServiceMethod>)
    requires forall p :: 0 <= p < |sm| ==>
      NoNewline(sm[p].service) && NoNewline(sm[p].methodName) && NoNewline(sm[p].longMethod)
    ensures Lines(JoinLines(AllLines(sm))) == AllLines(sm)
  {
    AllLinesPlain(sm);
    LinesJoinLines(AllLines(sm));
  }
}
