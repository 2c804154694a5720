/** Printing a store specification. */
module StoreSpecPrinting {
  import opened Text
  import PebbleOptions
  import opened StoreSpecs

  // ---------- Printing ----------

  function Entry(key: string, value: string): string
  {
    key + ['='] + value
  }

  function PathPart(ss: Spec): seq<string>
  {
    if ss.path != "" then [Entry("path", ss.path)] else []
  }

  function TypePart(ss: Spec): seq<string>
  {
    if ss.inMemory then [Entry("type", "mem")] else []
  }

  function BytesPart(env: Env, key: string, size: Size): seq<string>
  {
    if size.bytes > 0 then [Entry(key, env.printBytes(size.bytes))] else []
  }

  function PercentPart(env: Env, key: string, size: Size): seq<string>
  {
    if size.percent > 0.0 then [Entry(key, env.printFloat(size.percent) + "%")] else []
  }

  /** The ballast to print; a missing one prints like an empty one. */
  function Ballast(ss: Spec): Size
  {
    if ss.ballast.Some? then ss.ballast.value else NO_SIZE
  }

  function AttrsPart(ss: Spec): seq<string>
  {
    if ss.attrs != [] then [Entry("attrs", Join(ss.attrs, ':'))] else []
  }

  function PebblePart(ss: Spec): seq<string>
  {
    if ss.pebble != "" then [Entry("pebble", PebbleOptions.Spaced(ss.pebble))] else []
  }

  function PrintRate(env: Env, rate: Rate): string
  {
    if rate.bandwidth > 0
    then Join([Entry("disk-name", rate.diskName), Entry("bandwidth", env.printBytes(rate.bandwidth) + "/s")], ':')
    else Entry("disk-name", rate.diskName)
  }

  function RatePart(env: Env, ss: Spec): seq<string>
  {
    if ss.rate.diskName != "" then [Entry("provisioned-rate", PrintRate(env, ss.rate))] else []
  }

  function RemotePart(ss: Spec): seq<string>
  {
    if ss.remote != "" then [Entry("remote-storage", ss.remote)] else []
  }

  function StorageParts(env: Env, ss: Spec): seq<string>
  {
    PathPart(ss) + TypePart(ss) + BytesPart(env, "size", ss.size) + PercentPart(env, "size", ss.size)
    + BytesPart(env, "ballast-size", Ballast(ss)) + PercentPart(env, "ballast-size", Ballast(ss))
  }

  function OptionParts(env: Env, ss: Spec): seq<string>
  {
    AttrsPart(ss) + PebblePart(ss) + RatePart(env, ss) + RemotePart(ss)
  }

  function Parts(env: Env, ss: Spec): seq<string>
  {
    StorageParts(env, ss) + OptionParts(env, ss)
  }

  function Print(env: Env, ss: Spec): string
  {
    Join(Parts(env, ss), ',')
  }

  /** Parts, each followed by a comma. */
  function Terminated(parts: seq<string>): string
  {
    if parts == [] then "" else parts[0] + "," + Terminated(parts[1..])
  }

  lemma {:induction false} TerminatedConcat(a: seq<string>, b: seq<string>)
    ensures Terminated(a + b) == Terminated(a) + Terminated(b)
  {
    if a == [] {
      assert a + b == b;
    } else {
      assert (a + b)[1..] == a[1..] + b;
      TerminatedConcat(a[1..], b);
    }
  }

  lemma {:induction false} TerminatedIsJoin(parts: seq<string>)
    requires parts != []
    ensures Terminated(parts) == Join(parts, ',') + ","
  {
    if |parts| > 1 {
      TerminatedIsJoin(parts[1..]);
    } else {
      assert Terminated(parts[1..]) == "";
    }
  }

  lemma {:induction false} JoinSnoc(parts: seq<string>, last: string, c: char)
    requires parts != []
    ensures Join(parts + [last], c) == Join(parts, c) + [c] + last
  {
    if |parts| > 1 {
      JoinSnoc(parts[1..], last, c);
      assert (parts + [last])[1..] == parts[1..] + [last];
    } else {
      assert (parts + [last])[1..] == [last];
    }
  }

  method PrintAttrs(buffer0: string, attrs: seq<string>) returns (buffer: string)
    ensures buffer == buffer0 + Join(attrs, ':')
  {
    buffer := buffer0;
    for i := 0 to |attrs|
      invariant buffer == buffer0 + Join(attrs[..i], ':')
    {
      assert attrs[..i + 1] == attrs[..i] + [attrs[i]];
      if i != 0 {
        JoinSnoc(attrs[..i], attrs[i], ':');
        buffer := buffer + ":";
      }
      buffer := buffer + attrs[i];
    }
    assert attrs[..|attrs|] == attrs;
  }

  lemma TerminatedPart(parts: seq<string>, part: seq<string>)
    requires |part| <= 1
    ensures Terminated(parts + part) == if part == [] then Terminated(parts) else Terminated(parts) + (part[0] + ",")
  {
    TerminatedConcat(parts, part);
    if part != [] {
      assert part[1..] == [];
      assert Terminated(part) == part[0] + "," + "";
    }
  }

  /** fmt.Fprintf(buffer, "key=%s,", value), for a part that is printed if `present`. */
  method Emit(buffer: string, present: bool, key: string, value: string, ghost parts: seq<string>)
    returns (buffer': string)
    requires buffer == Terminated(parts)
    ensures buffer' == Terminated(parts + if present then [Entry(key, value)] else [])
  {
    buffer' := buffer;
    if present {
      buffer' := buffer' + key + "=" + value + ",";
      assert buffer' == buffer + (Entry(key, value) + ",");
    }
    TerminatedPart(parts, if present then [Entry(key, value)] else []);
  }

  method PrintStorage(env: Env, ss: Spec) returns (buffer: string)
    ensures buffer == Terminated(StorageParts(env, ss))
  {
    ghost var parts := [];
    buffer := Emit("", ss.path != "", "path", ss.path, parts);
    parts := parts + PathPart(ss);
    assert parts == PathPart(ss);
    buffer := Emit(buffer, ss.inMemory, "type", "mem", parts);
    parts := parts + TypePart(ss);
    buffer := Emit(buffer, ss.size.bytes > 0, "size", env.printBytes(ss.size.bytes), parts);
    parts := parts + BytesPart(env, "size", ss.size);
    buffer := Emit(buffer, ss.size.percent > 0.0, "size", env.printFloat(ss.size.percent) + "%", parts);
    parts := parts + PercentPart(env, "size", ss.size);
    var ballast := Ballast(ss);
    buffer := Emit(buffer, ballast.bytes > 0, "ballast-size", env.printBytes(ballast.bytes), parts);
    parts := parts + BytesPart(env, "ballast-size", ballast);
    buffer := Emit(buffer, ballast.percent > 0.0, "ballast-size", env.printFloat(ballast.percent) + "%", parts);
  }

  method PrintOptions(env: Env, ss: Spec) returns (buffer: string)
    ensures buffer == Terminated(OptionParts(env, ss))
  {
    ghost var parts := [];
    var attrs := PrintAttrs("", ss.attrs);
    assert attrs == Join(ss.attrs, ':');
    buffer := Emit("", |ss.attrs| > 0, "attrs", attrs, parts);
    parts := parts + AttrsPart(ss);
    assert parts == AttrsPart(ss);
    buffer := Emit(buffer, |ss.pebble| > 0, "pebble", PebbleOptions.Spaced(ss.pebble), parts);
    parts := parts + PebblePart(ss);
    buffer := Emit(buffer, |ss.rate.diskName| > 0, "provisioned-rate", PrintRate(env, ss.rate), parts);
    parts := parts + RatePart(env, ss);
    buffer := Emit(buffer, |ss.remote| > 0, "remote-storage", ss.remote, parts);
  }

  /** StoreSpec.String: every part followed by a comma, and the last comma cut off. */
  method String(env: Env, ss: Spec) returns (text: string)
    ensures text == Print(env, ss)
  {
    var storage := PrintStorage(env, ss);
    var options := PrintOptions(env, ss);
    var buffer := storage + options;
    ghost var parts := Parts(env, ss);
    TerminatedConcat(StorageParts(env, ss), OptionParts(env, ss));
    if |buffer| > 0 {
      TerminatedIsJoin(parts);
      buffer := buffer[..|buffer| - 1];
    } else {
      TerminatedNonEmpty(parts);
    }
    return buffer;
  }

  lemma TerminatedNonEmpty(parts: seq<string>)
    ensures parts != [] ==> Terminated(parts) != ""
  {
  }
}
