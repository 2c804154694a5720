/**
 What each field of a store specification means: the outcome of parsing a path and one more field, or a store in
 memory, in terms of what the library functions make of the value.
 */
module StoreSpecLaws {
  import opened Common
  import opened Text
  import PebbleOptions
  import opened StoreSpecs
  import opened StoreSpecPrinting
  import RoundTrip = StoreSpecRoundTrip

  /** The specification of a path alone. */
  function AtPath(path: string): Spec
  {
    ZERO_SPEC.(path := path)
  }

  /** A path and one more field, written as `name`. */
  function PathAnd(path: string, name: string, value: string): string
  {
    Join([Entry("path", path), Entry(name, value)], ',')
  }

  /** The text can be taken apart: it has no commas but the one between the two fields. */
  ghost predicate TwoFields(env: Env, path: string, name: string, value: string)
  {
    && env.lower("path") == "path" && path != "" && ',' !in path
    && '=' !in name && ',' !in name && ',' !in value
  }

  // ---------- Taking the text apart ----------

  function Finish(r: Outcome<Partial>): Outcome<Spec>
  {
    match r
    case Ok(st) => if Consistent(st.ss) then Ok(st.ss) else Err
    case Err => Err
    case Hang => Hang
  }

  lemma ParseTwo(env: Env, first: string, second: string, st: Partial)
    requires first != "" && ',' !in first && ',' !in second
    requires Field(env, Partial(ZERO_SPEC, {}), first) == Ok(st)
    ensures Parse(env, Join([first, second], ',')) == Finish(Field(env, st, second))
  {
    var parts := [first, second];
    SplitJoin(parts, ',');
    assert parts[1..] == [second] && [second][1..] == [];
    var r := Field(env, st, second);
    assert r.Ok? ==> Fields(env, [], r.value) == r;
    assert Fields(env, [second], st) == r;
  }

  lemma FieldIs(env: Env, st: Partial, name: string, value: string)
    requires '=' !in name
    ensures var key := env.lower(name);
            Field(env, st, Entry(name, value)) ==
            if key in st.used then Err
            else if key == "" then Ok(st.(used := st.used + {key}))
            else if value == "" then Err
            else match SetField(env, st.ss, key, value)
                 case Ok(ss) => Ok(Partial(ss, st.used + {key}))
                 case Err => Err
                 case Hang => Hang
  {
    CutFirst(name, '=', value);
  }

  lemma PathIsSet(env: Env, path: string)
    requires env.lower("path") == "path" && path != ""
    ensures Field(env, Partial(ZERO_SPEC, {}), Entry("path", path)) == Ok(Partial(AtPath(path), {"path"}))
  {
    FieldIs(env, Partial(ZERO_SPEC, {}), "path", path);
    var none: set<string> := {};
    assert none + {"path"} == {"path"};
  }

  /** The second field decides. */
  lemma SecondField(env: Env, path: string, name: string, value: string)
    requires TwoFields(env, path, name, value)
    ensures var key := env.lower(name);
            Parse(env, PathAnd(path, name, value)) ==
            if key == "path" then Err
            else if key == "" then Ok(AtPath(path))
            else if value == "" then Err
            else match SetField(env, AtPath(path), key, value)
                 case Ok(ss) => if Consistent(ss) then Ok(ss) else Err
                 case Err => Err
                 case Hang => Hang
  {
    PathIsSet(env, path);
    RoundTrip.EntryIsCommaFree("path", path);
    RoundTrip.EntryIsCommaFree(name, value);
    ParseTwo(env, Entry("path", path), Entry(name, value), Partial(AtPath(path), {"path"}));
    FieldIs(env, Partial(AtPath(path), {"path"}), name, value);
  }

  // ---------- Fields next to a path ----------

  /** A second path, an unknown name, and an empty value are rejected; an empty name is passed over. */
  lemma OtherFields(env: Env, path: string, name: string, value: string)
    requires TwoFields(env, path, name, value)
    ensures env.lower(name) == "path" ==> Parse(env, PathAnd(path, name, value)) == Err
    ensures env.lower(name) == "" ==> Parse(env, PathAnd(path, name, value)) == Ok(AtPath(path))
    ensures env.lower(name) != "" && value == "" ==> Parse(env, PathAnd(path, name, value)) == Err
    ensures env.lower(name) !in {"", "path", "size", "ballast-size", "attrs", "type", "rocksdb", "pebble",
                                 "provisioned-rate", "remote-storage"} ==>
              Parse(env, PathAnd(path, name, value)) == Err
  {
    SecondField(env, path, name, value);
  }

  /** What a size stands for: a fraction in percent if it ends in a percent sign, otherwise as a share of one, or a
      number of bytes, each within its limits. */
  ghost predicate Means(env: Env, value: string, minBytes: int, minPercent: real, maxPercent: real, size: Option<Size>)
    requires value != ""
  {
    if !env.isFraction(value) then
      match env.parseBytes(value)
      case None => size == None
      case Some(n) => size == if n >= minBytes then Some(Size(n, 0.0)) else None
    else if value[|value| - 1] == '%' then
      match env.parseFloat(value[..|value| - 1])
      case None => size == None
      case Some(p) => size == if minPercent <= p <= maxPercent then Some(Size(0, p)) else None
    else
      match env.parseFloat(value)
      case None => size == None
      case Some(f) => size == if minPercent <= 100.0 * f <= maxPercent then Some(Size(0, 100.0 * f)) else None
  }

  lemma SizeMeans(env: Env, value: string, minBytes: int, minPercent: real, maxPercent: real)
    requires value != ""
    ensures Means(env, value, minBytes, minPercent, maxPercent, ParseSize(env, value, minBytes, minPercent, maxPercent))
  {
  }

  /** A size is at least 640 MiB, or between 1 and 100 percent. */
  lemma SizeField(env: Env, path: string, name: string, value: string) returns (size: Option<Size>)
    requires TwoFields(env, path, name, value) && env.lower(name) == "size" && value != ""
    ensures Means(env, value, 640 * 1024 * 1024, 1.0, 100.0, size)
    ensures Parse(env, PathAnd(path, name, value)) ==
            if size.Some? then Ok(AtPath(path).(size := size.value)) else Err
  {
    SecondField(env, path, name, value);
    size := ParseSize(env, value, MINIMUM_STORE_SIZE, 1.0, 100.0);
    SizeMeans(env, value, MINIMUM_STORE_SIZE, 1.0, 100.0);
  }

  /** A ballast is any number of bytes, or at most 50 percent. */
  lemma BallastField(env: Env, path: string, name: string, value: string) returns (size: Option<Size>)
    requires TwoFields(env, path, name, value) && env.lower(name) == "ballast-size" && value != ""
    ensures Means(env, value, 0, 0.0, 50.0, size)
    ensures Parse(env, PathAnd(path, name, value)) ==
            if size.Some? then Ok(AtPath(path).(ballast := size)) else Err
  {
    SecondField(env, path, name, value);
    size := ParseSize(env, value, 0, 0.0, 50.0);
    SizeMeans(env, value, 0, 0.0, 50.0);
  }

  /** At a concrete input: half the disk. */
  lemma HalfTheDisk(env: Env, text: string, value: string)
    requires env.lower("path") == "path" && env.lower("size") == "size"
    requires value == "0.5" && env.isFraction(value) && env.parseFloat(value) == Some(0.5)
    requires text == PathAnd("a", "size", value)
    ensures Parse(env, text) == Ok(AtPath("a").(size := Size(0, 50.0)))
  {
    var size := SizeField(env, "a", "size", value);
  }

  /** Attributes are accepted exactly if no two are the same; they are kept in ascending order. */
  lemma AttrsField(env: Env, path: string, name: string, attrs: seq<string>) returns (sorted: seq<string>)
    requires attrs != [] && forall i :: 0 <= i < |attrs| ==> ':' !in attrs[i]
    requires TwoFields(env, path, name, Join(attrs, ':')) && env.lower(name) == "attrs" && Join(attrs, ':') != ""
    ensures Parse(env, PathAnd(path, name, Join(attrs, ':'))) ==
            if forall i, j :: 0 <= i < j < |attrs| ==> attrs[i] != attrs[j] then Ok(AtPath(path).(attrs := sorted)) else Err
    ensures (forall i, j :: 0 <= i < j < |attrs| ==> attrs[i] != attrs[j]) ==>
              StrictlySorted(sorted) && forall a :: a in sorted <==> a in attrs
  {
    SecondField(env, path, name, Join(attrs, ':'));
    SplitJoin(attrs, ':');
    sorted := Sort(attrs);
    if Distinct(attrs) {
      SortSorts(attrs);
    }
  }

  /** RocksDB options and the remote storage are taken as they are. */
  lemma VerbatimFields(env: Env, path: string, name: string, value: string)
    requires TwoFields(env, path, name, value) && value != ""
    ensures env.lower(name) == "rocksdb" ==> Parse(env, PathAnd(path, name, value)) == Ok(AtPath(path).(rocksdb := value))
    ensures env.lower(name) == "remote-storage" ==>
              Parse(env, PathAnd(path, name, value)) == Ok(AtPath(path).(remote := value))
  {
    SecondField(env, path, name, value);
  }

  /** Pebble options are kept in their normal form if Pebble accepts that; if there is none, parsing does not end. */
  lemma PebbleField(env: Env, path: string, name: string, value: string)
    requires TwoFields(env, path, name, value) && env.lower(name) == "pebble" && value != ""
    ensures var norm := PebbleOptions.Norm(PebbleOptions.Trim(value));
            Parse(env, PathAnd(path, name, value)) ==
            if norm.None? then Hang
            else if env.pebbleParses(norm.value) then Ok(AtPath(path).(pebble := norm.value))
            else Err
  {
    SecondField(env, path, name, value);
  }

  /** A store with a path is never in memory. */
  lemma TypeField(env: Env, path: string, name: string, value: string)
    requires TwoFields(env, path, name, value) && env.lower(name) == "type"
    ensures Parse(env, PathAnd(path, name, value)) == Err
  {
    SecondField(env, path, name, value);
  }

  // ---------- The provisioned rate ----------

  lemma RateField(env: Env, path: string, name: string, value: string)
    requires TwoFields(env, path, name, value) && env.lower(name) == "provisioned-rate" && value != ""
    ensures var rate := ParseRate(env, value);
            Parse(env, PathAnd(path, name, value)) ==
            if rate.None? then Err else Ok(AtPath(path).(rate := rate.value))
  {
    SecondField(env, path, name, value);
  }

  lemma SubFieldIs(env: Env, st: PartialRate, name: string, value: string)
    requires '=' !in name && '=' !in value && name != "" && name !in st.used
    ensures StoreSpecs.RateField(env, st, Entry(name, value)) ==
            if value == "" then None
            else if name == "disk-name" then Some(PartialRate(st.rate.(diskName := value), st.used + {name}))
            else if name == "bandwidth" then
              if |value| <= 2 || value[|value| - 2..] != "/s" then None
              else
                var bandwidth := env.parseBytes(value[..|value| - 2]);
                if bandwidth.None? || bandwidth.value == 0 then None
                else Some(PartialRate(st.rate.(bandwidth := bandwidth.value), st.used + {name}))
            else None
  {
    SplitFirst(name, '=', value);
    SplitWhole(value, '=');
  }

  lemma RateOfTwo(env: Env, first: string, second: string)
    requires first != "" && ':' !in first && ':' !in second
    ensures var st1 := StoreSpecs.RateField(env, PartialRate(NO_RATE, {}), first);
            var st2 := if st1.None? then None else StoreSpecs.RateField(env, st1.value, second);
            ParseRate(env, Join([first, second], ':')) ==
            if st2.None? || st2.value.rate.diskName == "" then None else Some(st2.value.rate)
  {
    var parts := [first, second];
    SplitJoin(parts, ':');
    assert parts[1..] == [second] && [second][1..] == [];
    var st1 := StoreSpecs.RateField(env, PartialRate(NO_RATE, {}), first);
    if st1.Some? {
      var st2 := StoreSpecs.RateField(env, st1.value, second);
      assert st2.Some? ==> RateFields(env, [], st2.value) == st2;
      assert RateFields(env, [second], st1.value) == st2;
    }
  }

  lemma DiskFirst(env: Env, disk: string, amount: string, value: string)
    requires disk != "" && '=' !in disk && ':' !in disk && amount != "" && '=' !in amount && ':' !in amount
    requires value == amount + "/s" && value[|value| - 2..] == "/s" && value[..|value| - 2] == amount
    ensures var n := env.parseBytes(amount);
            ParseRate(env, Join([Entry("disk-name", disk), Entry("bandwidth", value)], ':')) ==
            if n.None? || n.value == 0 then None else Some(Rate(disk, n.value))
  {
    RateOfTwo(env, Entry("disk-name", disk), Entry("bandwidth", value));
    RoundTrip.DiskNameParses(env, disk);
    SubFieldIs(env, PartialRate(Rate(disk, 0), {"disk-name"}), "bandwidth", value);
  }

  lemma BandwidthFirst(env: Env, disk: string, amount: string, value: string)
    requires disk != "" && '=' !in disk && ':' !in disk && amount != "" && '=' !in amount && ':' !in amount
    requires value == amount + "/s" && value[|value| - 2..] == "/s" && value[..|value| - 2] == amount
    ensures var n := env.parseBytes(amount);
            ParseRate(env, Join([Entry("bandwidth", value), Entry("disk-name", disk)], ':')) ==
            if n.None? || n.value == 0 then None else Some(Rate(disk, n.value))
  {
    RateOfTwo(env, Entry("bandwidth", value), Entry("disk-name", disk));
    SubFieldIs(env, PartialRate(NO_RATE, {}), "bandwidth", value);
    var n, empty: set<string> := env.parseBytes(amount), {};
    assert empty + {"bandwidth"} == {"bandwidth"};
    if n.Some? {
      SubFieldIs(env, PartialRate(Rate("", n.value), {"bandwidth"}), "disk-name", disk);
    }
  }

  /** A disk name and a bandwidth, in either order: the bandwidth is a number of bytes other than zero per second. */
  lemma RateWithBandwidth(env: Env, disk: string, amount: string)
    requires disk != "" && '=' !in disk && ':' !in disk && amount != "" && '=' !in amount && ':' !in amount
    ensures var d, b := Entry("disk-name", disk), Entry("bandwidth", amount + "/s");
            var n := env.parseBytes(amount);
            && ParseRate(env, Join([d, b], ':')) == ParseRate(env, Join([b, d], ':'))
            && ParseRate(env, Join([d, b], ':')) ==
               if n.None? || n.value == 0 then None else Some(Rate(disk, n.value))
  {
    var value := amount + "/s";
    assert value[|value| - 2..] == "/s" && value[..|value| - 2] == amount;
    DiskFirst(env, disk, amount, value);
    BandwidthFirst(env, disk, amount, value);
  }

  lemma RateOfOne(env: Env, only: string)
    requires only != "" && ':' !in only
    ensures var st := StoreSpecs.RateField(env, PartialRate(NO_RATE, {}), only);
            ParseRate(env, only) == if st.None? || st.value.rate.diskName == "" then None else Some(st.value.rate)
  {
    SplitWhole(only, ':');
    assert [only][1..] == [];
    var st := StoreSpecs.RateField(env, PartialRate(NO_RATE, {}), only);
    assert st.Some? ==> RateFields(env, [], st.value) == st;
  }

  /** A disk name alone is enough, and nothing else is. */
  lemma RateOfOneField(env: Env, name: string, value: string)
    requires name != "" && '=' !in name && ':' !in name && '=' !in value && ':' !in value
    ensures ParseRate(env, Entry(name, value)) ==
            if name == "disk-name" && value != "" then Some(Rate(value, 0)) else None
  {
    RateOfOne(env, Entry(name, value));
    SubFieldIs(env, PartialRate(NO_RATE, {}), name, value);
  }

  /** A second field that is no proper bandwidth spoils a rate. */
  lemma SpoiledRate(env: Env, disk: string, name: string, value: string)
    requires disk != "" && '=' !in disk && ':' !in disk
    requires name != "" && '=' !in name && ':' !in name && '=' !in value && ':' !in value
    requires name != "bandwidth" || |value| <= 2 || value[|value| - 2..] != "/s"
    ensures ParseRate(env, Join([Entry("disk-name", disk), Entry(name, value)], ':')) == None
  {
    var first, second := Entry("disk-name", disk), Entry(name, value);
    RateOfTwo(env, first, second);
    SubFieldIs(env, PartialRate(NO_RATE, {}), "disk-name", disk);
    var empty: set<string> := {};
    assert empty + {"disk-name"} == {"disk-name"};
    if name == "disk-name" {
      SplitFirst(name, '=', value);
      SplitWhole(value, '=');
    } else {
      SubFieldIs(env, PartialRate(Rate(disk, 0), {"disk-name"}), name, value);
    }
  }

  /** A provisioned rate: the disk, and a bandwidth in bytes per second that must not be zero. */
  lemma ProvisionedRateField(env: Env, path: string, name: string, disk: string, amount: string, value: string)
    requires disk != "" && '=' !in disk && ':' !in disk && amount != "" && '=' !in amount && ':' !in amount
    requires value == Join([Entry("disk-name", disk), Entry("bandwidth", amount + "/s")], ':')
    requires TwoFields(env, path, name, value) && env.lower(name) == "provisioned-rate"
    ensures var n := env.parseBytes(amount);
            Parse(env, PathAnd(path, name, value)) ==
            if n.None? || n.value == 0 then Err else Ok(AtPath(path).(rate := Rate(disk, n.value)))
  {
    RateWithBandwidth(env, disk, amount);
    RateField(env, path, name, value);
  }

  /** The disk alone. */
  lemma ProvisionedDiskField(env: Env, path: string, name: string, disk: string, value: string)
    requires disk != "" && '=' !in disk && ':' !in disk && value == Entry("disk-name", disk)
    requires TwoFields(env, path, name, value) && env.lower(name) == "provisioned-rate"
    ensures Parse(env, PathAnd(path, name, value)) == Ok(AtPath(path).(rate := Rate(disk, 0)))
  {
    RateOfOneField(env, "disk-name", disk);
    RateField(env, path, name, value);
  }

  // ---------- Other texts ----------

  lemma ParseOne(env: Env, only: string)
    requires only != "" && ',' !in only
    ensures Parse(env, only) == Finish(Field(env, Partial(ZERO_SPEC, {}), only))
  {
    SplitWhole(only, ',');
    assert [only][1..] == [];
    var r := Field(env, Partial(ZERO_SPEC, {}), only);
    assert r.Ok? ==> Fields(env, [], r.value) == r;
  }

  lemma {:induction false} NothingToCut(s: string, c: char)
    requires c !in s
    ensures Cut(s, c) == None
  {
    if s != "" {
      assert c !in s[1..];
      NothingToCut(s[1..], c);
    }
  }

  /** A text without a name is a path; the empty text is rejected. */
  lemma BarePath(env: Env, path: string)
    requires ',' !in path && '=' !in path
    ensures Parse(env, path) == if path == "" then Err else Ok(AtPath(path))
  {
    if path != "" {
      ParseOne(env, path);
      NothingToCut(path, '=');
    }
  }

  /** Any one field but a path is not enough. */
  lemma PathIsMissing(env: Env, name: string, value: string)
    requires '=' !in name && ',' !in name && ',' !in value && env.lower(name) != "path"
    ensures !Parse(env, Entry(name, value)).Ok?
  {
    RoundTrip.EntryIsCommaFree(name, value);
    ParseOne(env, Entry(name, value));
    FieldIs(env, Partial(ZERO_SPEC, {}), name, value);
  }

  lemma TypeIsSet(env: Env, value: string)
    requires env.lower("type") == "type" && value == "mem"
    ensures Field(env, Partial(ZERO_SPEC, {}), Entry("type", value)) ==
            Ok(Partial(ZERO_SPEC.(inMemory := true), {"type"}))
  {
    FieldIs(env, Partial(ZERO_SPEC, {}), "type", value);
    var none: set<string> := {};
    assert none + {"type"} == {"type"};
  }

  lemma SecondInMemory(env: Env, name: string, value: string, mem: string, key: string)
    requires mem == "mem" && env.lower("type") == "type" && '=' !in name && ',' !in name && ',' !in value && value != ""
    requires key == env.lower(name)
    ensures Parse(env, Join([Entry("type", mem), Entry(name, value)], ',')) ==
            if key == "type" || key == "" then Err
            else match SetField(env, ZERO_SPEC.(inMemory := true), key, value)
                 case Ok(ss) => if Consistent(ss) then Ok(ss) else Err
                 case Err => Err
                 case Hang => Hang
  {
    TypeIsSet(env, mem);
    RoundTrip.EntryIsCommaFree("type", mem);
    RoundTrip.EntryIsCommaFree(name, value);
    var st := Partial(ZERO_SPEC.(inMemory := true), {"type"});
    ParseTwo(env, Entry("type", mem), Entry(name, value), st);
    FieldIs(env, st, name, value);
  }

  lemma OnlySizeConsists(env: Env, key: string, value: string)
    requires value != "" && key != "size"
    ensures var r := SetField(env, ZERO_SPEC.(inMemory := true), key, value); r.Ok? ==> !Consistent(r.value)
  {
  }

  /** A store in memory needs a size and is rejected with any other single field. */
  lemma InMemory(env: Env, name: string, value: string, mem: string) returns (size: Option<Size>)
    requires mem == "mem" && env.lower("type") == "type" && '=' !in name && ',' !in name && ',' !in value && value != ""
    ensures env.lower(name) == "size" ==> Means(env, value, 640 * 1024 * 1024, 1.0, 100.0, size)
    ensures env.lower(name) == "size" ==>
              Parse(env, Join([Entry("type", mem), Entry(name, value)], ',')) ==
              if size.Some? then Ok(ZERO_SPEC.(inMemory := true, size := size.value)) else Err
    ensures env.lower(name) != "size" ==> !Parse(env, Join([Entry("type", mem), Entry(name, value)], ',')).Ok?
  {
    SecondInMemory(env, name, value, mem, env.lower(name));
    size := None;
    if env.lower(name) == "size" {
      size := ParseSize(env, value, MINIMUM_STORE_SIZE, 1.0, 100.0);
      SizeMeans(env, value, MINIMUM_STORE_SIZE, 1.0, 100.0);
    } else {
      OnlySizeConsists(env, env.lower(name), value);
    }
  }

  /** The name a part of the text goes by. */
  function NameOf(env: Env, part: string): string
  {
    var cut := Cut(part, '=');
    if cut.None? then "path" else env.lower(cut.value.0)
  }

  lemma {:induction false} FieldsAreUsedOnce(env: Env, splits: seq<string>, st: Partial)
    requires Fields(env, splits, st).Ok?
    ensures forall i :: 0 <= i < |splits| && splits[i] != "" ==> NameOf(env, splits[i]) !in st.used
    ensures forall i, j :: 0 <= i < j < |splits| && splits[i] != "" && splits[j] != "" ==>
              NameOf(env, splits[i]) != NameOf(env, splits[j])
  {
    if splits != [] {
      var rest, next := splits[1..], Field(env, st, splits[0]);
      assert next.Ok?;
      FieldsAreUsedOnce(env, rest, next.value);
      assert forall i :: 0 < i < |splits| ==> splits[i] == rest[i - 1];
      assert splits[0] != "" ==> next.value.used == st.used + {NameOf(env, splits[0])};
    }
  }

  /** No field is accepted twice, wherever it stands. */
  lemma NoFieldTwice(env: Env, parts: seq<string>, i: nat, j: nat)
    requires forall k :: 0 <= k < |parts| ==> ',' !in parts[k]
    requires i < j < |parts| && parts[i] != "" && parts[j] != "" && NameOf(env, parts[i]) == NameOf(env, parts[j])
    ensures !Parse(env, Join(parts, ',')).Ok?
  {
    SplitJoin(parts, ',');
    if Parse(env, Join(parts, ',')).Ok? {
      FieldsAreUsedOnce(env, parts, Partial(ZERO_SPEC, {}));
    }
  }

  /** What every accepted text stands for: a store with a path, or one in memory with a size and without a ballast. */
  lemma AcceptedStores(env: Env, text: string)
    requires Parse(env, text).Ok?
    ensures var ss := Parse(env, text).value;
            if ss.inMemory then ss.path == "" && ss.size != Size(0, 0.0) && ss.ballast == None else ss.path != ""
    ensures text != ""
  {
  }

  // ---------- Pebble options in characters ----------

  /** Printable ASCII other than the space and an opening bracket. */
  predicate Graphic(c: char)
  {
    '!' <= c <= '~' && c != '['
  }

  /** Space, tab, newline, vertical tab, form feed, carriage return. */
  predicate Blank(c: char)
  {
    c == ' ' || c == '\t' || c == '\n' || c == '\U{000B}' || c == '\U{000C}' || c == '\r'
  }

  /** Text is copied up to the next blank or bracket. */
  lemma OptionText(a: string, rest: string)
    requires forall i :: 0 <= i < |a| ==> Graphic(a[i])
    ensures PebbleOptions.Norm(a + rest) == PebbleOptions.Prepend(a, PebbleOptions.Norm(rest))
  {
    var v := a + rest;
    assert v[..|a|] == a && v[|a|..] == rest;
    assert forall k :: 0 <= k < |a| ==> v[k] == a[k];
    PebbleOptions.NormPlain(v, |a|);
  }

  /** Brackets are copied with what is in them; one that stays open has no normal form. */
  lemma OptionStanza(b: string, rest: string)
    requires ']' !in b
    ensures PebbleOptions.Norm("[" + b + "]" + rest) ==
            PebbleOptions.Prepend("[" + b + "]", PebbleOptions.Norm(rest))
    ensures PebbleOptions.Norm("[" + b) == None
  {
    var v := "[" + b + "]" + rest;
    var n := |b| + 1;
    PebbleOptions.FindIs(v, PebbleOptions.Closes, 0, n);
    assert v[..n + 1] == "[" + b + "]" && v[n + 1..] == rest;
    PebbleOptions.NormAtBracket(v, "[" + b + "]", rest);
    PebbleOptions.FindIs("[" + b, PebbleOptions.Closes, 0, n);
    PebbleOptions.NormAtOpenBracket("[" + b);
  }

  lemma {:induction false} BlanksAreTrimmed(w: string, rest: string)
    requires (forall i :: 0 <= i < |w| ==> Blank(w[i])) && (rest != "" ==> Graphic(rest[0]) || rest[0] == '[')
    ensures PebbleOptions.TrimLeft(w + rest) == rest
  {
    if w == "" {
      assert w + rest == rest;
    } else {
      assert (w + rest)[1..] == w[1..] + rest;
      BlanksAreTrimmed(w[1..], rest);
    }
  }

  /** A run of blanks becomes one newline. */
  lemma OptionBreak(c: char, w: string, rest: string, v: string)
    requires Blank(c) && (forall i :: 0 <= i < |w| ==> Blank(w[i])) && (rest != "" ==> Graphic(rest[0]) || rest[0] == '[')
    requires v == [c] + w + rest
    ensures PebbleOptions.Norm(v) == PebbleOptions.Prepend("\n", PebbleOptions.Norm(rest))
  {
    BlanksAreTrimmed(w, rest);
    TailOf(c, w, rest, v);
    NormAtBlank(v, rest);
  }

  lemma TailOf(c: char, w: string, rest: string, v: string)
    requires v == [c] + w + rest
    ensures v != "" && v[0] == c && v[1..] == w + rest
  {
  }

  lemma NormAtBlank(v: string, rest: string)
    requires v != "" && Blank(v[0]) && PebbleOptions.TrimLeft(v[1..]) == rest
    ensures PebbleOptions.Norm(v) == PebbleOptions.Prepend("\n", PebbleOptions.Norm(rest))
  {
  }

  /** Blanks around the options are dropped first. */
  lemma OptionEnds(w: string, options: string, w': string)
    requires (forall i :: 0 <= i < |w| ==> Blank(w[i])) && (forall i :: 0 <= i < |w'| ==> Blank(w'[i]))
    requires options != "" && (Graphic(options[0]) || options[0] == '[') && Graphic(options[|options| - 1])
    ensures PebbleOptions.Trim(w + options + w') == options
  {
    assert w + options + w' == w + (options + w');
    BlanksAreTrimmed(w, options + w');
    BlanksAtTheEnd(options, w');
  }

  lemma {:induction false} BlanksAtTheEnd(options: string, w: string)
    requires options != "" && Graphic(options[|options| - 1]) && forall i :: 0 <= i < |w| ==> Blank(w[i])
    ensures PebbleOptions.TrimRight(options + w) == options
  {
    var s := options + w;
    if w == "" {
      assert s == options;
    } else {
      assert s[|s| - 1] == w[|w| - 1] && s[..|s| - 1] == options + w[..|w| - 1];
      BlanksAtTheEnd(options, w[..|w| - 1]);
    }
  }

  // ---------- Printing ----------

  /** The parts of a specification on disk in the order in which they are printed. */
  lemma PrintsInOrder(env: Env, ss: Spec, disk: string, n: int, p: real, rate: string, parts: seq<string>)
    requires ss.path != "" && !ss.inMemory && ss.size == Size(n, 0.0) && n > 0 && ss.ballast == Some(Size(0, p)) && p > 0.0
    requires ss.attrs != [] && ss.pebble != "" && ss.rate == Rate(disk, n) && disk != "" && ss.remote != ""
    requires rate == Join([Entry("disk-name", disk), Entry("bandwidth", env.printBytes(n) + "/s")], ':')
    requires parts == [Entry("path", ss.path), Entry("size", env.printBytes(n)),
                       Entry("ballast-size", env.printFloat(p) + "%"), Entry("attrs", Join(ss.attrs, ':')),
                       Entry("pebble", PebbleOptions.Spaced(ss.pebble)), Entry("provisioned-rate", rate),
                       Entry("remote-storage", ss.remote)]
    ensures Print(env, ss) == Join(parts, ',')
    ensures forall i :: 0 <= i < |ss.pebble| ==>
              PebbleOptions.Spaced(ss.pebble)[i] == if ss.pebble[i] == '\n' then ' ' else ss.pebble[i]
  {
    var s, o := StorageParts(env, ss), OptionParts(env, ss);
    assert s == parts[..3];
    assert o == parts[3..];
    assert Parts(env, ss) == parts;
  }

  /** A store in memory of some percentage. */
  lemma PrintsInMemory(env: Env, ss: Spec, p: real, parts: seq<string>)
    requires ss == ZERO_SPEC.(inMemory := true, size := Size(0, p)) && p > 0.0
    requires parts == [Entry("type", "mem"), Entry("size", env.printFloat(p) + "%")]
    ensures Print(env, ss) == Join(parts, ',')
  {
    assert StorageParts(env, ss) == parts;
    assert OptionParts(env, ss) == [];
    assert Parts(env, ss) == parts;
  }
}
