/**
 What parsing a printed store specification gives back. String is documented to be fully parsable; the
 main theorem says exactly for which accepted specifications it is.
 */
module StoreSpecRoundTrip {
  import opened Common
  import opened Text
  import PebbleOptions
  import opened StoreSpecs
  import opened StoreSpecPrinting

  // ---------- What the parser accepts ----------

  ghost predicate SizeInRange(size: Size, minBytes: int, minPercent: real, maxPercent: real)
  {
    || (size.percent == 0.0 && size.bytes >= minBytes)
    || (size.bytes == 0 && minPercent <= size.percent <= maxPercent)
  }

  ghost predicate AttrsAccepted(attrs: seq<string>)
  {
    && StrictlySorted(attrs) && attrs != [""]
    && forall i :: 0 <= i < |attrs| ==> ',' !in attrs[i] && ':' !in attrs[i]
  }

  ghost predicate PebbleAccepted(env: Env, options: string)
  {
    && ',' !in options
    && (options != "" ==>
          env.pebbleParses(options) && PebbleOptions.Normal(options) && !PebbleOptions.IsSpace(options[0]))
  }

  ghost predicate RateAccepted(rate: Rate)
  {
    && (rate.diskName == "" ==> rate == NO_RATE)
    && ',' !in rate.diskName && ':' !in rate.diskName && '=' !in rate.diskName
  }

  /** What every specification assembled by the field loop satisfies. */
  ghost predicate Assembled(env: Env, ss: Spec)
  {
    && ',' !in ss.path && ',' !in ss.remote
    && (ss.size == NO_SIZE || SizeInRange(ss.size, MINIMUM_STORE_SIZE, 1.0, 100.0))
    && (ss.ballast.Some? ==> SizeInRange(ss.ballast.value, 0, 0.0, 50.0))
    && AttrsAccepted(ss.attrs)
    && PebbleAccepted(env, ss.pebble)
    && RateAccepted(ss.rate)
  }

  ghost predicate Accepted(env: Env, ss: Spec)
  {
    Assembled(env, ss) && Consistent(ss)
  }

  lemma {:induction false} JoinOfSplit(s: string, c: char)
    ensures Join(Split(s, c), c) == s
  {
    if s != "" {
      JoinOfSplit(s[1..], c);
      var rest, parts := Split(s[1..], c), Split(s, c);
      if s[0] == c {
        assert parts[1..] == rest;
      } else {
        assert parts[1..] == rest[1..];
      }
    }
  }

  lemma AttrsAreAccepted(value: string)
    requires value != "" && ',' !in value && Distinct(Split(value, ':'))
    ensures AttrsAccepted(Sort(Split(value, ':')))
  {
    var parts := Split(value, ':');
    var attrs := Sort(parts);
    SortSorts(parts);
    SplitFree(value, ':', ',');
    forall i | 0 <= i < |attrs|
      ensures ',' !in attrs[i] && ':' !in attrs[i]
    {
      assert attrs[i] in attrs;
      var k :| 0 <= k < |parts| && parts[k] == attrs[i];
    }
    JoinOfSplit(value, ':');
    if attrs == [""] {
      BlankSorts(parts);
    }
  }

  lemma BlankSorts(parts: seq<string>)
    requires Distinct(parts) && parts != [] && Sort(parts) == [""]
    ensures parts == [""]
  {
    SortSorts(parts);
    assert parts[0] in Sort(parts);
  }

  lemma {:induction false} NormKeepsFree(v: string, d: char)
    requires d !in v && d != '\n' && PebbleOptions.Norm(v).Some?
    ensures d !in PebbleOptions.Norm(v).value
    decreases |v|
  {
    if v != "" {
      if v[0] == '[' {
        NormKeepsFree(v[PebbleOptions.Find(v, PebbleOptions.Closes, 0) + 1..], d);
      } else if PebbleOptions.AsciiSpace(v[0]) {
        PebbleOptions.TrimKeepsFree(v[1..], d);
        NormKeepsFree(PebbleOptions.TrimLeft(v[1..]), d);
      } else {
        NormKeepsFree(v[1..], d);
      }
    }
  }

  lemma PebbleIsAccepted(env: Env, value: string)
    requires ',' !in value && ParsePebble(env, value).Ok?
    ensures PebbleAccepted(env, ParsePebble(env, value).value)
  {
    var v := PebbleOptions.Trim(value);
    PebbleOptions.TrimKeepsFree(value, ',');
    NormKeepsFree(v, ',');
    PebbleOptions.NormIsNormal(v);
  }

  lemma {:induction false} RateFieldsAccepted(env: Env, splits: seq<string>, st: PartialRate)
    requires forall i :: 0 <= i < |splits| ==> ',' !in splits[i] && ':' !in splits[i]
    requires ',' !in st.rate.diskName && ':' !in st.rate.diskName && '=' !in st.rate.diskName
    ensures var r := RateFields(env, splits, st);
            r.Some? ==> ',' !in r.value.rate.diskName && ':' !in r.value.rate.diskName && '=' !in r.value.rate.diskName
  {
    if splits != [] {
      var next := RateField(env, st, splits[0]);
      SplitFree(splits[0], '=', ',');
      SplitFree(splits[0], '=', ':');
      if next.Some? {
        RateFieldsAccepted(env, splits[1..], next.value);
      }
    }
  }

  lemma RateIsAccepted(env: Env, value: string)
    requires ',' !in value && ParseRate(env, value).Some?
    ensures RateAccepted(ParseRate(env, value).value)
  {
    SplitFree(value, ':', ',');
    RateFieldsAccepted(env, Split(value, ':'), PartialRate(NO_RATE, {}));
  }

  lemma SizesAssemble(env: Env, value: string, minBytes: int, minPercent: real, maxPercent: real)
    requires value != ""
    ensures var size := ParseSize(env, value, minBytes, minPercent, maxPercent);
            size.Some? ==> SizeInRange(size.value, minBytes, minPercent, maxPercent)
  {
  }

  lemma SetFieldAssembles(env: Env, ss: Spec, field: string, value: string)
    requires Assembled(env, ss) && value != "" && ',' !in value
    ensures SetField(env, ss, field, value).Ok? ==> Assembled(env, SetField(env, ss, field, value).value)
  {
    var r := SetField(env, ss, field, value);
    if !r.Ok? {
      return;
    }
    if field == "path" {
      assert r == Ok(ss.(path := value));
    } else if field == "size" {
      SizesAssemble(env, value, MINIMUM_STORE_SIZE, 1.0, 100.0);
      assert r.value == ss.(size := r.value.size);
    } else if field == "ballast-size" {
      SizesAssemble(env, value, 0, 0.0, 50.0);
      assert r.value == ss.(ballast := r.value.ballast);
    } else if field == "attrs" {
      AttrsAreAccepted(value);
      assert r.value == ss.(attrs := r.value.attrs);
    } else if field == "type" {
      assert r.value == ss.(inMemory := true);
    } else if field == "rocksdb" {
      assert r.value == ss.(rocksdb := value);
    } else if field == "pebble" {
      PebbleIsAccepted(env, value);
      assert r.value == ss.(pebble := r.value.pebble);
    } else if field == "provisioned-rate" {
      RateIsAccepted(env, value);
      assert r.value == ss.(rate := r.value.rate);
    } else {
      assert r.value == ss.(remote := value);
    }
  }

  lemma {:induction false} FieldsAssemble(env: Env, splits: seq<string>, st: Partial)
    requires Assembled(env, st.ss) && forall i :: 0 <= i < |splits| ==> ',' !in splits[i]
    ensures Fields(env, splits, st).Ok? ==> Assembled(env, Fields(env, splits, st).value.ss)
  {
    if splits != [] {
      var split, next := splits[0], Field(env, st, splits[0]);
      if next.Ok? {
        if split != "" {
          var cut := Cut(split, '=');
          var field := if cut.None? then "path" else env.lower(cut.value.0);
          var value := if cut.None? then split else cut.value.1;
          assert ',' !in value;
          if value != "" {
            SetFieldAssembles(env, st.ss, field, value);
          }
        }
        FieldsAssemble(env, splits[1..], next.value);
      }
    }
  }

  /** Whatever NewStoreSpec returns without an error is an accepted specification. */
  lemma ParsedIsAccepted(env: Env, value: string)
    requires Parse(env, value).Ok?
    ensures Accepted(env, Parse(env, value).value)
  {
    FieldsAssemble(env, Split(value, ','), Partial(ZERO_SPEC, {}));
  }

  // ---------- Sizes that survive printing ----------

  ghost predicate BytesComeBack(env: Env, n: int)
  {
    var text := env.printBytes(n);
    text != "" && !env.isFraction(text) && env.parseBytes(text) == Some(n)
    && ',' !in text && ':' !in text && '=' !in text
  }

  ghost predicate PercentComesBack(env: Env, p: real)
  {
    var text := env.printFloat(p);
    env.isFraction(text + "%") && env.parseFloat(text) == Some(p) && ',' !in text
  }

  ghost predicate SizeComesBack(env: Env, size: Size)
  {
    (size.bytes > 0 ==> BytesComeBack(env, size.bytes)) && (size.percent > 0.0 ==> PercentComesBack(env, size.percent))
  }

  const KEYS := ["path", "type", "size", "ballast-size", "attrs", "pebble", "provisioned-rate", "remote-storage"]

  /** The library functions invert each other on the sizes in `ss`, and lower case stays as it is. */
  ghost predicate CodecsInvert(env: Env, ss: Spec)
  {
    && (forall i :: 0 <= i < |KEYS| ==> env.lower(KEYS[i]) == KEYS[i])
    && SizeComesBack(env, ss.size)
    && SizeComesBack(env, Ballast(ss))
    && (ss.rate.bandwidth > 0 ==> BytesComeBack(env, ss.rate.bandwidth))
  }

  // ---------- Parsing the printed parts, one after the other ----------

  function Then(env: Env, st: Outcome<Partial>, splits: seq<string>): Outcome<Partial>
  {
    match st
    case Ok(p) => Fields(env, splits, p)
    case Err => Err
    case Hang => Hang
  }

  lemma {:induction false} FieldsConcat(env: Env, a: seq<string>, b: seq<string>, st: Partial)
    ensures Fields(env, a + b, st) == Then(env, Fields(env, a, st), b)
  {
    if a == [] {
      assert a + b == b;
    } else {
      assert (a + b)[1..] == a[1..] + b;
      if Field(env, st, a[0]).Ok? {
        FieldsConcat(env, a[1..], b, Field(env, st, a[0]).value);
      }
    }
  }

  /** A printed part sets its field. */
  lemma EntrySets(env: Env, st: Partial, key: string, value: string)
    requires env.lower(key) == key && key != "" && '=' !in key && key !in st.used && value != ""
    ensures Fields(env, [Entry(key, value)], st) ==
            match SetField(env, st.ss, key, value)
            case Ok(ss) => Ok(Partial(ss, st.used + {key}))
            case Err => Err
            case Hang => Hang
  {
    CutFirst(key, '=', value);
    var split := Entry(key, value);
    assert Fields(env, [split][1..], st) == Ok(st);
    assert Field(env, st, split) ==
           match SetField(env, st.ss, key, value)
           case Ok(ss) => Ok(Partial(ss, st.used + {key}))
           case Err => Err
           case Hang => Hang;
    if SetField(env, st.ss, key, value).Ok? {
      var st' := Partial(SetField(env, st.ss, key, value).value, st.used + {key});
      assert [split][1..] == [];
      assert Fields(env, [split], st) == Fields(env, [split][1..], st');
    }
  }

  /** What the field names used so far become when a part is or is not printed. */
  function Use(used: set<string>, present: bool, key: string): set<string>
  {
    if present then used + {key} else used
  }

  lemma PathBack(env: Env, ss: Spec, st: Partial)
    requires CodecsInvert(env, ss) && "path" !in st.used && st.ss.path == ""
    ensures Fields(env, PathPart(ss), st) == Ok(Partial(st.ss.(path := ss.path), Use(st.used, ss.path != "", "path")))
  {
    assert env.lower(KEYS[0]) == KEYS[0];
    if ss.path != "" {
      EntrySets(env, st, "path", ss.path);
    }
  }

  lemma TypeBack(env: Env, ss: Spec, st: Partial)
    requires CodecsInvert(env, ss) && "type" !in st.used && !st.ss.inMemory
    ensures Fields(env, TypePart(ss), st) == Ok(Partial(st.ss.(inMemory := ss.inMemory), Use(st.used, ss.inMemory, "type")))
  {
    assert env.lower(KEYS[1]) == KEYS[1];
    if ss.inMemory {
      EntrySets(env, st, "type", "mem");
    }
  }

  lemma PrintedBytesParse(env: Env, n: int, minBytes: int, minPercent: real, maxPercent: real)
    requires BytesComeBack(env, n) && minBytes <= n
    ensures ParseSize(env, env.printBytes(n), minBytes, minPercent, maxPercent) == Some(Size(n, 0.0))
  {
  }

  lemma PrintedPercentParses(env: Env, p: real, minBytes: int, minPercent: real, maxPercent: real)
    requires PercentComesBack(env, p) && minPercent <= p <= maxPercent
    ensures ParseSize(env, env.printFloat(p) + "%", minBytes, minPercent, maxPercent) == Some(Size(0, p))
  {
    var text := env.printFloat(p) + "%";
    assert text[..|text| - 1] == env.printFloat(p);
  }

  lemma SizeBack(env: Env, ss: Spec, st: Partial)
    requires Accepted(env, ss) && CodecsInvert(env, ss) && "size" !in st.used && st.ss.size == NO_SIZE
    ensures Fields(env, BytesPart(env, "size", ss.size) + PercentPart(env, "size", ss.size), st) ==
            Ok(Partial(st.ss.(size := ss.size), Use(st.used, ss.size != NO_SIZE, "size")))
  {
    assert env.lower(KEYS[2]) == KEYS[2];
    var size := ss.size;
    if size.bytes > 0 {
      PrintedBytesParse(env, size.bytes, MINIMUM_STORE_SIZE, 1.0, 100.0);
      EntrySets(env, st, "size", env.printBytes(size.bytes));
      assert BytesPart(env, "size", size) + PercentPart(env, "size", size) == [Entry("size", env.printBytes(size.bytes))];
    } else if size.percent > 0.0 {
      PrintedPercentParses(env, size.percent, MINIMUM_STORE_SIZE, 1.0, 100.0);
      EntrySets(env, st, "size", env.printFloat(size.percent) + "%");
      assert BytesPart(env, "size", size) + PercentPart(env, "size", size) == [Entry("size", env.printFloat(size.percent) + "%")];
    }
  }

  /** The ballast that is printed: a zero one is not. */
  function Reballast(ss: Spec): Option<Size>
  {
    if ss.ballast == Some(NO_SIZE) then None else ss.ballast
  }

  lemma BallastBack(env: Env, ss: Spec, st: Partial)
    requires Accepted(env, ss) && CodecsInvert(env, ss) && "ballast-size" !in st.used && st.ss.ballast == None
    ensures var size := Ballast(ss);
            Fields(env, BytesPart(env, "ballast-size", size) + PercentPart(env, "ballast-size", size), st) ==
            Ok(Partial(st.ss.(ballast := Reballast(ss)), Use(st.used, size != NO_SIZE, "ballast-size")))
  {
    assert env.lower(KEYS[3]) == KEYS[3];
    var key, size := "ballast-size", Ballast(ss);
    if size.bytes > 0 {
      PrintedBytesParse(env, size.bytes, 0, 0.0, 50.0);
      EntrySets(env, st, key, env.printBytes(size.bytes));
      assert BytesPart(env, key, size) + PercentPart(env, key, size) == [Entry(key, env.printBytes(size.bytes))];
    } else if size.percent > 0.0 {
      PrintedPercentParses(env, size.percent, 0, 0.0, 50.0);
      EntrySets(env, st, key, env.printFloat(size.percent) + "%");
      assert BytesPart(env, key, size) + PercentPart(env, key, size) == [Entry(key, env.printFloat(size.percent) + "%")];
    }
  }

  lemma {:induction false} JoinNonEmpty(parts: seq<string>, c: char)
    requires parts != [] && parts != [""]
    ensures Join(parts, c) != ""
  {
  }

  lemma AttrsBack(env: Env, ss: Spec, st: Partial)
    requires Accepted(env, ss) && CodecsInvert(env, ss) && "attrs" !in st.used && st.ss.attrs == []
    ensures Fields(env, AttrsPart(ss), st) == Ok(Partial(st.ss.(attrs := ss.attrs), Use(st.used, ss.attrs != [], "attrs")))
  {
    assert env.lower(KEYS[4]) == KEYS[4];
    if ss.attrs != [] {
      var text := Join(ss.attrs, ':');
      JoinNonEmpty(ss.attrs, ':');
      SplitJoin(ss.attrs, ':');
      SortOfSorted(ss.attrs);
      EntrySets(env, st, "attrs", text);
    }
  }

  /** The options that parsing gives back: newlines inside brackets have become spaces. */
  ghost function Reoptions(env: Env, ss: Spec): string
    requires Accepted(env, ss)
  {
    if ss.pebble == "" then "" else PebbleOptions.StanzasSpaced(ss.pebble)
  }

  lemma PebbleBack(env: Env, ss: Spec, st: Partial)
    requires Accepted(env, ss) && CodecsInvert(env, ss) && "pebble" !in st.used && st.ss.pebble == ""
    ensures Fields(env, PebblePart(ss), st) ==
            if ss.pebble != "" && !env.pebbleParses(Reoptions(env, ss)) then Err
            else Ok(Partial(st.ss.(pebble := Reoptions(env, ss)), Use(st.used, ss.pebble != "", "pebble")))
  {
    assert env.lower(KEYS[5]) == KEYS[5];
    if ss.pebble != "" {
      PebbleOptions.SpacedIsTrimmed(ss.pebble);
      PebbleOptions.NormOfPrinted(ss.pebble);
      EntrySets(env, st, "pebble", PebbleOptions.Spaced(ss.pebble));
    }
  }

  /** The rate that is printed: a bandwidth that is not positive is not. */
  function Rerate(rate: Rate): Rate
  {
    if rate.bandwidth > 0 then rate else rate.(bandwidth := 0)
  }

  lemma DiskNameParses(env: Env, name: string)
    requires name != "" && '=' !in name
    ensures RateField(env, PartialRate(NO_RATE, {}), Entry("disk-name", name)) ==
            Some(PartialRate(Rate(name, 0), {"disk-name"}))
  {
    SplitFirst("disk-name", '=', name);
    SplitWhole(name, '=');
    var none: set<string> := {};
    assert none + {"disk-name"} == {"disk-name"};
  }

  lemma BandwidthParses(env: Env, name: string, n: int)
    requires n > 0 && BytesComeBack(env, n)
    ensures RateField(env, PartialRate(Rate(name, 0), {"disk-name"}), Entry("bandwidth", env.printBytes(n) + "/s")) ==
            Some(PartialRate(Rate(name, n), {"disk-name", "bandwidth"}))
  {
    var value := env.printBytes(n) + "/s";
    SplitFirst("bandwidth", '=', value);
    SplitWhole(value, '=');
    assert value[|value| - 2..] == "/s" && value[..|value| - 2] == env.printBytes(n);
    assert {"disk-name"} + {"bandwidth"} == {"disk-name", "bandwidth"};
  }

  lemma ParsesTo(env: Env, value: string, splits: seq<string>, st: PartialRate)
    requires Split(value, ':') == splits && RateFields(env, splits, PartialRate(NO_RATE, {})) == Some(st)
    requires st.rate.diskName != ""
    ensures ParseRate(env, value) == Some(st.rate)
  {
  }

  lemma DiskNameAloneParses(env: Env, name: string)
    requires name != "" && '=' !in name && ':' !in name
    ensures ParseRate(env, Entry("disk-name", name)) == Some(Rate(name, 0))
  {
    var disk := Entry("disk-name", name);
    DiskNameParses(env, name);
    SplitWhole(disk, ':');
    assert [disk][1..] == [];
    ParsesTo(env, disk, [disk], PartialRate(Rate(name, 0), {"disk-name"}));
  }

  lemma WholeRateParses(env: Env, rate: Rate)
    requires RateAccepted(rate) && rate.diskName != "" && rate.bandwidth > 0 && BytesComeBack(env, rate.bandwidth)
    ensures ParseRate(env, PrintRate(env, rate)) == Some(rate)
  {
    var disk, band := Entry("disk-name", rate.diskName), Entry("bandwidth", env.printBytes(rate.bandwidth) + "/s");
    var st1 := PartialRate(Rate(rate.diskName, 0), {"disk-name"});
    var st2 := PartialRate(rate, {"disk-name", "bandwidth"});
    DiskNameParses(env, rate.diskName);
    BandwidthParses(env, rate.diskName, rate.bandwidth);
    SplitJoin([disk, band], ':');
    assert [disk, band][1..] == [band] && [band][1..] == [];
    assert RateFields(env, [band], st1) == Some(st2);
    assert RateFields(env, [disk, band], PartialRate(NO_RATE, {})) == RateFields(env, [band], st1);
    ParsesTo(env, PrintRate(env, rate), [disk, band], st2);
  }

  lemma PrintedRateParses(env: Env, rate: Rate)
    requires RateAccepted(rate) && rate.diskName != "" && (rate.bandwidth > 0 ==> BytesComeBack(env, rate.bandwidth))
    ensures PrintRate(env, rate) != "" && ParseRate(env, PrintRate(env, rate)) == Some(Rerate(rate))
  {
    if rate.bandwidth > 0 {
      WholeRateParses(env, rate);
    } else {
      DiskNameAloneParses(env, rate.diskName);
    }
  }

  lemma RateBack(env: Env, ss: Spec, st: Partial)
    requires Accepted(env, ss) && CodecsInvert(env, ss) && "provisioned-rate" !in st.used && st.ss.rate == NO_RATE
    ensures Fields(env, RatePart(env, ss), st) ==
            Ok(Partial(st.ss.(rate := Rerate(ss.rate)), Use(st.used, ss.rate.diskName != "", "provisioned-rate")))
  {
    assert env.lower(KEYS[6]) == KEYS[6];
    if ss.rate.diskName != "" {
      PrintedRateParses(env, ss.rate);
      EntrySets(env, st, "provisioned-rate", PrintRate(env, ss.rate));
    }
  }

  lemma RemoteBack(env: Env, ss: Spec, st: Partial)
    requires CodecsInvert(env, ss) && "remote-storage" !in st.used && st.ss.remote == ""
    ensures Fields(env, RemotePart(ss), st) ==
            Ok(Partial(st.ss.(remote := ss.remote), Use(st.used, ss.remote != "", "remote-storage")))
  {
    assert env.lower(KEYS[7]) == KEYS[7];
    if ss.remote != "" {
      EntrySets(env, st, "remote-storage", ss.remote);
    }
  }

  // ---------- The whole specification ----------

  /** The specification that parsing the printed text gives back. */
  ghost function Reparsed(env: Env, ss: Spec): Spec
    requires Accepted(env, ss)
  {
    ss.(rocksdb := "", ballast := Reballast(ss), pebble := Reoptions(env, ss), rate := Rerate(ss.rate))
  }

  lemma PathAndTypeBack(env: Env, ss: Spec) returns (used: set<string>)
    requires CodecsInvert(env, ss)
    ensures Fields(env, PathPart(ss) + TypePart(ss), Partial(ZERO_SPEC, {})) ==
            Ok(Partial(ZERO_SPEC.(path := ss.path, inMemory := ss.inMemory), used))
    ensures used <= {"path", "type"}
  {
    var s0 := Partial(ZERO_SPEC, {});
    PathBack(env, ss, s0);
    var s1 := Partial(ZERO_SPEC.(path := ss.path), Use({}, ss.path != "", "path"));
    TypeBack(env, ss, s1);
    FieldsConcat(env, PathPart(ss), TypePart(ss), s0);
    used := Use(s1.used, ss.inMemory, "type");
  }

  lemma SizesBack(env: Env, ss: Spec, st: Partial) returns (used: set<string>)
    requires Accepted(env, ss) && CodecsInvert(env, ss) && st.ss.size == NO_SIZE && st.ss.ballast == None
    requires st.used <= {"path", "type"}
    ensures Fields(env, BytesPart(env, "size", ss.size) + PercentPart(env, "size", ss.size)
                        + (BytesPart(env, "ballast-size", Ballast(ss)) + PercentPart(env, "ballast-size", Ballast(ss))), st) ==
            Ok(Partial(st.ss.(size := ss.size, ballast := Reballast(ss)), used))
    ensures used <= {"path", "type", "size", "ballast-size"}
  {
    SizeBack(env, ss, st);
    var s1 := Partial(st.ss.(size := ss.size), Use(st.used, ss.size != NO_SIZE, "size"));
    BallastBack(env, ss, s1);
    FieldsConcat(env, BytesPart(env, "size", ss.size) + PercentPart(env, "size", ss.size),
                 BytesPart(env, "ballast-size", Ballast(ss)) + PercentPart(env, "ballast-size", Ballast(ss)), st);
    used := Use(s1.used, Ballast(ss) != NO_SIZE, "ballast-size");
  }

  lemma StorageBack(env: Env, ss: Spec) returns (used: set<string>)
    requires Accepted(env, ss) && CodecsInvert(env, ss)
    ensures var st := ZERO_SPEC.(path := ss.path, inMemory := ss.inMemory, size := ss.size, ballast := Reballast(ss));
            Fields(env, StorageParts(env, ss), Partial(ZERO_SPEC, {})) == Ok(Partial(st, used))
    ensures used <= {"path", "type", "size", "ballast-size"}
  {
    used := PathAndTypeBack(env, ss);
    var s2 := Partial(ZERO_SPEC.(path := ss.path, inMemory := ss.inMemory), used);
    used := SizesBack(env, ss, s2);
    var c := BytesPart(env, "size", ss.size) + PercentPart(env, "size", ss.size);
    var d := BytesPart(env, "ballast-size", Ballast(ss)) + PercentPart(env, "ballast-size", Ballast(ss));
    FieldsConcat(env, PathPart(ss) + TypePart(ss), c + d, Partial(ZERO_SPEC, {}));
    assert StorageParts(env, ss) == PathPart(ss) + TypePart(ss) + (c + d);
  }

  lemma AttrsAndPebbleBack(env: Env, ss: Spec, st: Partial) returns (used: set<string>)
    requires Accepted(env, ss) && CodecsInvert(env, ss) && st.ss.attrs == [] && st.ss.pebble == ""
    requires st.used <= {"path", "type", "size", "ballast-size"}
    ensures Fields(env, AttrsPart(ss) + PebblePart(ss), st) ==
            if ss.pebble != "" && !env.pebbleParses(Reoptions(env, ss)) then Err
            else Ok(Partial(st.ss.(attrs := ss.attrs, pebble := Reoptions(env, ss)), used))
    ensures used <= {"path", "type", "size", "ballast-size", "attrs", "pebble"}
  {
    AttrsBack(env, ss, st);
    var s1 := Partial(st.ss.(attrs := ss.attrs), Use(st.used, ss.attrs != [], "attrs"));
    PebbleBack(env, ss, s1);
    FieldsConcat(env, AttrsPart(ss), PebblePart(ss), st);
    used := Use(s1.used, ss.pebble != "", "pebble");
  }

  lemma RateAndRemoteBack(env: Env, ss: Spec, st: Partial) returns (used: set<string>)
    requires Accepted(env, ss) && CodecsInvert(env, ss) && st.ss.rate == NO_RATE && st.ss.remote == ""
    requires st.used <= {"path", "type", "size", "ballast-size", "attrs", "pebble"}
    ensures Fields(env, RatePart(env, ss) + RemotePart(ss), st) ==
            Ok(Partial(st.ss.(rate := Rerate(ss.rate), remote := ss.remote), used))
  {
    RateBack(env, ss, st);
    var s1 := Partial(st.ss.(rate := Rerate(ss.rate)), Use(st.used, ss.rate.diskName != "", "provisioned-rate"));
    RemoteBack(env, ss, s1);
    FieldsConcat(env, RatePart(env, ss), RemotePart(ss), st);
    used := Use(s1.used, ss.remote != "", "remote-storage");
  }

  lemma OptionsBack(env: Env, ss: Spec, st: Partial) returns (used: set<string>)
    requires Accepted(env, ss) && CodecsInvert(env, ss)
    requires st.ss.attrs == [] && st.ss.pebble == "" && st.ss.rate == NO_RATE && st.ss.remote == ""
    requires st.used <= {"path", "type", "size", "ballast-size"}
    ensures Fields(env, OptionParts(env, ss), st) ==
            if ss.pebble != "" && !env.pebbleParses(Reoptions(env, ss)) then Err
            else Ok(Partial(st.ss.(attrs := ss.attrs, pebble := Reoptions(env, ss), rate := Rerate(ss.rate),
                                   remote := ss.remote), used))
  {
    used := AttrsAndPebbleBack(env, ss, st);
    var s2 := Partial(st.ss.(attrs := ss.attrs, pebble := Reoptions(env, ss)), used);
    used := RateAndRemoteBack(env, ss, s2);
    var a, b, c, d := AttrsPart(ss), PebblePart(ss), RatePart(env, ss), RemotePart(ss);
    FieldsConcat(env, a + b, c + d, st);
    Regroup(a + b, c, d);
  }

  predicate CommaFree(parts: seq<string>)
  {
    forall i :: 0 <= i < |parts| ==> ',' !in parts[i]
  }

  lemma EntryIsCommaFree(key: string, value: string)
    requires ',' !in key && ',' !in value
    ensures CommaFree([Entry(key, value)])
  {
  }

  lemma SizePartsAreCommaFree(env: Env, key: string, size: Size)
    requires ',' !in key && SizeComesBack(env, size)
    ensures CommaFree(BytesPart(env, key, size)) && CommaFree(PercentPart(env, key, size))
  {
    if size.percent > 0.0 {
      EntryIsCommaFree(key, env.printFloat(size.percent) + "%");
    }
  }

  lemma CommaFreeConcat(a: seq<string>, b: seq<string>)
    requires CommaFree(a) && CommaFree(b)
    ensures CommaFree(a + b)
  {
  }

  lemma StorageIsCommaFree(env: Env, ss: Spec)
    requires Accepted(env, ss) && CodecsInvert(env, ss)
    ensures CommaFree(StorageParts(env, ss))
  {
    var a, b, c, d, e, f := PathPart(ss), TypePart(ss), BytesPart(env, "size", ss.size), PercentPart(env, "size", ss.size),
                            BytesPart(env, "ballast-size", Ballast(ss)), PercentPart(env, "ballast-size", Ballast(ss));
    EntryIsCommaFree("path", ss.path);
    EntryIsCommaFree("type", "mem");
    SizePartsAreCommaFree(env, "size", ss.size);
    SizePartsAreCommaFree(env, "ballast-size", Ballast(ss));
    CommaFreeConcat(a, b);
    CommaFreeConcat(a + b, c);
    CommaFreeConcat(a + b + c, d);
    CommaFreeConcat(a + b + c + d, e);
    CommaFreeConcat(a + b + c + d + e, f);
  }

  lemma JoinIsCommaFree(parts: seq<string>)
    requires CommaFree(parts)
    ensures ',' !in Join(parts, ':')
  {
    if ',' in Join(parts, ':') {
      JoinContains(parts, ':', ',');
    }
  }

  lemma RateIsCommaFree(env: Env, ss: Spec)
    requires Accepted(env, ss) && CodecsInvert(env, ss)
    ensures ',' !in PrintRate(env, ss.rate)
  {
    EntryIsCommaFree("disk-name", ss.rate.diskName);
    if ss.rate.bandwidth > 0 {
      EntryIsCommaFree("bandwidth", env.printBytes(ss.rate.bandwidth) + "/s");
      JoinIsCommaFree([Entry("disk-name", ss.rate.diskName), Entry("bandwidth", env.printBytes(ss.rate.bandwidth) + "/s")]);
    } else {
      assert ',' !in [Entry("disk-name", ss.rate.diskName)][0];
    }
  }

  lemma OptionsAreCommaFree(env: Env, ss: Spec)
    requires Accepted(env, ss) && CodecsInvert(env, ss)
    ensures CommaFree(OptionParts(env, ss))
  {
    var a, b, c, d := AttrsPart(ss), PebblePart(ss), RatePart(env, ss), RemotePart(ss);
    JoinIsCommaFree(ss.attrs);
    EntryIsCommaFree("attrs", Join(ss.attrs, ':'));
    EntryIsCommaFree("pebble", PebbleOptions.Spaced(ss.pebble));
    RateIsCommaFree(env, ss);
    EntryIsCommaFree("provisioned-rate", PrintRate(env, ss.rate));
    EntryIsCommaFree("remote-storage", ss.remote);
    CommaFreeConcat(a, b);
    CommaFreeConcat(a + b, c);
    CommaFreeConcat(a + b + c, d);
  }

  /** What NewStoreSpec makes of a printed specification, in full. */
  lemma ReparsePrinted(env: Env, ss: Spec)
    requires Accepted(env, ss) && CodecsInvert(env, ss)
    ensures Parse(env, Print(env, ss)) ==
            if ss.pebble != "" && !env.pebbleParses(Reoptions(env, ss)) then Err else Ok(Reparsed(env, ss))
  {
    var parts := Parts(env, ss);
    StorageIsCommaFree(env, ss);
    OptionsAreCommaFree(env, ss);
    assert parts != [] by {
      assert (PathPart(ss) + TypePart(ss)) != [];
    }
    SplitJoin(parts, ',');
    PrintedIsNotEmpty(parts);
    var used := StorageBack(env, ss);
    var st := Partial(ZERO_SPEC.(path := ss.path, inMemory := ss.inMemory, size := ss.size, ballast := Reballast(ss)), used);
    FieldsConcat(env, StorageParts(env, ss), OptionParts(env, ss), Partial(ZERO_SPEC, {}));
    var _ := OptionsBack(env, ss, st);
  }

  lemma PrintedIsNotEmpty(parts: seq<string>)
    requires parts != [] && parts[0] != ""
    ensures Join(parts, ',') != ""
  {
  }

  /** Printing loses nothing: no RocksDB options, no zero ballast, no negative bandwidth, and no line
      break inside the brackets of the Pebble options. */
  ghost predicate Printable(env: Env, ss: Spec)
    requires Accepted(env, ss)
  {
    && ss.rocksdb == ""
    && ss.ballast != Some(NO_SIZE)
    && ss.rate.bandwidth >= 0
    && (ss.pebble != "" ==> PebbleOptions.StanzasOnOneLine(ss.pebble))
  }

  /** The printed text parses back to an equal specification if and only if it is printable. */
  lemma RoundTrip(env: Env, value: string)
    requires Parse(env, value).Ok? && CodecsInvert(env, Parse(env, value).value)
    ensures var ss := Parse(env, value).value;
            Accepted(env, ss) && (Parse(env, Print(env, ss)) == Ok(ss) <==> Printable(env, ss))
  {
    var ss := Parse(env, value).value;
    ParsedIsAccepted(env, value);
    ReparsePrinted(env, ss);
    if ss.pebble != "" {
      PebbleOptions.StanzasSpacedIff(ss.pebble);
    }
  }

  // ---------- Accepted specifications that do not come back ----------

  lemma PathAndFieldParse(env: Env, key: string, value: string, ss: Spec)
    requires env.lower("path") == "path" && env.lower(key) == key && key != "" && key != "path"
    requires '=' !in key && ',' !in key && ',' !in value && value != ""
    requires SetField(env, ZERO_SPEC.(path := "a"), key, value) == Ok(ss) && Consistent(ss)
    ensures Parse(env, "path=a," + Entry(key, value)) == Ok(ss)
  {
    var path, field := Entry("path", "a"), Entry(key, value);
    var st := Partial(ZERO_SPEC.(path := "a"), {"path"});
    SplitJoin([path, field], ',');
    assert Join([path, field], ',') == "path=a," + field by {
      assert [path, field][1..] == [field];
      assert path + [','] == "path=a,";
    }
    EntrySets(env, Partial(ZERO_SPEC, {}), "path", "a");
    EntrySets(env, st, key, value);
    FieldsConcat(env, [path], [field], Partial(ZERO_SPEC, {}));
    var none: set<string> := {};
    assert none + {"path"} == {"path"};
    assert [path] + [field] == [path, field];
  }

  /** The text is accepted, but what it stands for is not what its printed form stands for. */
  ghost predicate DoesNotComeBack(env: Env, value: string)
  {
    Parse(env, value).Ok? && Parse(env, Print(env, Parse(env, value).value)) != Parse(env, value)
  }

  ghost predicate KeysAreLower(env: Env)
  {
    env.lower("rocksdb") == "rocksdb" && forall i :: 0 <= i < |KEYS| ==> env.lower(KEYS[i]) == KEYS[i]
  }

  /** Besides the path "a", one field that is accepted but does not survive printing. */
  ghost predicate Unprintable(env: Env, key: string, value: string, ss: Spec)
  {
    && env.lower(key) == key && key != "" && key != "path" && '=' !in key && ',' !in key
    && ',' !in value && value != ""
    && SetField(env, ZERO_SPEC.(path := "a"), key, value) == Ok(ss) && Consistent(ss)
    && CodecsInvert(env, ss)
    && (ss.rocksdb != "" || ss.ballast == Some(NO_SIZE) || ss.rate.bandwidth < 0 ||
        (PebbleOptions.Normal(ss.pebble) && !PebbleOptions.StanzasOnOneLine(ss.pebble)))
  }

  lemma UnprintableDoesNotComeBack(env: Env, key: string, value: string, ss: Spec, text: string)
    requires KeysAreLower(env) && Unprintable(env, key, value, ss) && text == "path=a," + Entry(key, value)
    ensures DoesNotComeBack(env, text)
  {
    assert env.lower(KEYS[0]) == KEYS[0];
    PathAndFieldParse(env, key, value, ss);
    RoundTrip(env, text);
  }

  lemma UnprintableRocksdb(env: Env, key: string, value: string)
    requires KeysAreLower(env) && key == "rocksdb" && value != "" && ',' !in value
    ensures Unprintable(env, key, value, ZERO_SPEC.(path := "a", rocksdb := value))
  {
  }

  /** RocksDB options are not printed. */
  lemma RocksdbIsLost(env: Env, text: string)
    requires KeysAreLower(env) && text == "path=a,rocksdb=b"
    ensures DoesNotComeBack(env, text)
  {
    var key, value := "rocksdb", "b";
    UnprintableRocksdb(env, key, value);
    UnprintableDoesNotComeBack(env, key, value, ZERO_SPEC.(path := "a", rocksdb := value), text);
  }

  lemma UnprintableBallast(env: Env, key: string, value: string)
    requires KeysAreLower(env) && key == KEYS[3] && value == "0"
    requires !env.isFraction(value) && env.parseBytes(value) == Some(0)
    ensures Unprintable(env, key, value, ZERO_SPEC.(path := "a", ballast := Some(NO_SIZE)))
  {
  }

  /** A ballast of size zero is not printed. */
  lemma ZeroBallastIsLost(env: Env, text: string)
    requires KeysAreLower(env) && !env.isFraction("0") && env.parseBytes("0") == Some(0)
    requires text == "path=a,ballast-size=0"
    ensures DoesNotComeBack(env, text)
  {
    var key, value := KEYS[3], "0";
    UnprintableBallast(env, key, value);
    UnprintableDoesNotComeBack(env, key, value, ZERO_SPEC.(path := "a", ballast := Some(NO_SIZE)), text);
  }

  /** A bandwidth of any sign parses, as long as it is not zero. */
  lemma AnyBandwidthParses(env: Env, name: string, text: string, n: int)
    requires n != 0 && text != "" && '=' !in text && env.parseBytes(text) == Some(n)
    ensures RateField(env, PartialRate(Rate(name, 0), {"disk-name"}), Entry("bandwidth", text + "/s")) ==
            Some(PartialRate(Rate(name, n), {"disk-name", "bandwidth"}))
  {
    var value := text + "/s";
    SplitFirst("bandwidth", '=', value);
    SplitWhole(value, '=');
    assert value[|value| - 2..] == "/s" && value[..|value| - 2] == text;
    assert {"disk-name"} + {"bandwidth"} == {"disk-name", "bandwidth"};
  }

  lemma AnyRateParses(env: Env, name: string, text: string, n: int, disk: string, band: string)
    requires name != "" && '=' !in name && ':' !in name
    requires n != 0 && text != "" && '=' !in text && ':' !in text && env.parseBytes(text) == Some(n)
    requires disk == Entry("disk-name", name) && band == Entry("bandwidth", text + "/s")
    ensures ParseRate(env, Join([disk, band], ':')) == Some(Rate(name, n))
  {
    var st1, st2 := PartialRate(Rate(name, 0), {"disk-name"}), PartialRate(Rate(name, n), {"disk-name", "bandwidth"});
    DiskNameParses(env, name);
    AnyBandwidthParses(env, name, text, n);
    SplitJoin([disk, band], ':');
    assert [disk, band][1..] == [band] && [band][1..] == [];
    assert RateFields(env, [band], st1) == Some(st2);
    assert RateFields(env, [disk, band], PartialRate(NO_RATE, {})) == RateFields(env, [band], st1);
    ParsesTo(env, Join([disk, band], ':'), [disk, band], st2);
  }

  lemma RateIsSet(env: Env, ss: Spec, key: string, value: string, rate: Rate)
    requires key == KEYS[6] && value != "" && ParseRate(env, value) == Some(rate)
    ensures SetField(env, ss, key, value) == Ok(ss.(rate := rate))
    ensures key != "" && key != "path" && '=' !in key && ',' !in key
  {
  }

  lemma UnprintableRate(env: Env, key: string, value: string, rate: Rate)
    requires KeysAreLower(env) && key == KEYS[6] && value != "" && ',' !in value
    requires ParseRate(env, value) == Some(rate) && rate.bandwidth < 0
    ensures Unprintable(env, key, value, ZERO_SPEC.(path := "a", rate := rate))
  {
    RateIsSet(env, ZERO_SPEC.(path := "a"), key, value, rate);
  }

  /** A negative bandwidth is not printed, whatever the disk is called. */
  lemma NegativeBandwidthIsLost(env: Env, name: string, bandwidth: string, n: int, text: string)
    requires KeysAreLower(env) && name != "" && ',' !in name && '=' !in name && ':' !in name
    requires bandwidth != "" && ',' !in bandwidth && '=' !in bandwidth && ':' !in bandwidth
    requires env.parseBytes(bandwidth) == Some(n) && n < 0
    requires text == "path=a," + Entry("provisioned-rate",
                       Join([Entry("disk-name", name), Entry("bandwidth", bandwidth + "/s")], ':'))
    ensures DoesNotComeBack(env, text)
  {
    var key, disk, band := KEYS[6], Entry("disk-name", name), Entry("bandwidth", bandwidth + "/s");
    var value := Join([disk, band], ':');
    AnyRateParses(env, name, bandwidth, n, disk, band);
    EntryIsCommaFree("disk-name", name);
    EntryIsCommaFree("bandwidth", bandwidth + "/s");
    assert [disk][0] == disk && [band][0] == band;
    JoinIsCommaFree([disk, band]);
    UnprintableRate(env, key, value, Rate(name, n));
    UnprintableDoesNotComeBack(env, key, value, ZERO_SPEC.(path := "a", rate := Rate(name, n)), text);
  }

  /** One bracket that spans two lines is a normal form. */
  lemma LineBreakIsNormal(a: string, b: string, options: string)
    requires ']' !in a && ']' !in b && options == "[" + a + "\n" + b + "]"
    ensures PebbleOptions.Norm(PebbleOptions.Trim(options)) == Some(options)
    ensures PebbleOptions.Normal(options) && !PebbleOptions.StanzasOnOneLine(options)
  {
    var n := |options| - 1;
    PebbleOptions.TrimIsIdentity(options);
    PebbleOptions.FindIs(options, PebbleOptions.Closes, 0, n);
    assert options[..n + 1] == options && options[n + 1..] == "" && options[|a| + 1] == '\n';
    assert options + "" == options;
    assert options[..n + 1][|a| + 1] == '\n';
  }

  lemma CommaFreeBracket(a: string, b: string, options: string)
    requires ',' !in a && ',' !in b && options == "[" + a + "\n" + b + "]"
    ensures ',' !in options
  {
  }

  lemma PebbleParses(env: Env, options: string)
    requires env.pebbleParses(options) && PebbleOptions.Norm(PebbleOptions.Trim(options)) == Some(options)
    ensures ParsePebble(env, options) == Ok(options)
  {
  }

  lemma PebbleIsSet(env: Env, ss: Spec, key: string, value: string)
    requires key == "pebble" && value != "" && ParsePebble(env, value) == Ok(value)
    ensures SetField(env, ss, key, value) == Ok(ss.(pebble := value))
  {
  }

  lemma PebbleKey(key: string)
    requires key == KEYS[5]
    ensures key == "pebble" && key != "" && key != "path" && '=' !in key && ',' !in key
  {
  }

  lemma UnprintableOptions(env: Env, key: string, options: string, ss: Spec)
    requires KeysAreLower(env) && key == KEYS[5] && options != "" && ',' !in options
    requires ss == ZERO_SPEC.(path := "a", pebble := options)
    requires SetField(env, ZERO_SPEC.(path := "a"), key, options) == Ok(ss)
    requires PebbleOptions.Normal(ss.pebble) && !PebbleOptions.StanzasOnOneLine(ss.pebble)
    ensures Unprintable(env, key, options, ss)
  {
    PebbleKey(key);
  }

  lemma UnprintableBracket(env: Env, key: string, a: string, b: string, options: string)
    requires KeysAreLower(env) && key == KEYS[5] && env.pebbleParses(options)
    requires ']' !in a && ']' !in b && ',' !in a && ',' !in b && options == "[" + a + "\n" + b + "]"
    ensures Unprintable(env, key, options, ZERO_SPEC.(path := "a", pebble := options))
  {
    LineBreakIsNormal(a, b, options);
    CommaFreeBracket(a, b, options);
    PebbleKey(key);
    PebbleParses(env, options);
    PebbleIsSet(env, ZERO_SPEC.(path := "a"), key, options);
    UnprintableOptions(env, key, options, ZERO_SPEC.(path := "a", pebble := options));
  }

  /** Options with a line break inside brackets do not come back: it is printed as a space. */
  lemma LineBreakInBracketsIsLost(env: Env, a: string, b: string, options: string, text: string)
    requires KeysAreLower(env) && env.pebbleParses(options)
    requires ']' !in a && ']' !in b && ',' !in a && ',' !in b && options == "[" + a + "\n" + b + "]"
    requires text == "path=a," + Entry("pebble", options)
    ensures DoesNotComeBack(env, text)
  {
    UnprintableBracket(env, KEYS[5], a, b, options);
    UnprintableDoesNotComeBack(env, KEYS[5], options, ZERO_SPEC.(path := "a", pebble := options), text);
  }

  lemma BracketText(text: string, a: string, b: string, options: string)
    requires a == "a=b" && b == "c=d" && options == "[a=b\nc=d]" && text == "path=a,pebble=[a=b\nc=d]"
    ensures options == "[" + a + "\n" + b + "]" && text == "path=a," + Entry("pebble", options)
    ensures ']' !in a && ']' !in b && ',' !in a && ',' !in b
  {
  }

  /** At a concrete input. */
  lemma BracketedInputIsLost(env: Env, options: string, text: string)
    requires KeysAreLower(env) && options == "[a=b\nc=d]" && env.pebbleParses(options)
    requires text == "path=a,pebble=[a=b\nc=d]"
    ensures DoesNotComeBack(env, text)
  {
    var a, b := "a=b", "c=d";
    BracketText(text, a, b, options);
    LineBreakInBracketsIsLost(env, a, b, options, text);
  }
}
