/**
 The --store flag: parsing a store specification and printing it again. The codecs for sizes, the case
 mapping and the Pebble option parser are parameters.
 */
module StoreSpecs {
  import opened Common
  import opened Text
  import PebbleOptions

  const MINIMUM_STORE_SIZE: int := 671088640

  /** Library functions the parser and the printer rely on. */
  datatype Env = Env(
    lower: string -> string,                // strings.ToLower
    isFraction: string -> bool,             // fractionRegex
    parseFloat: string -> Option<real>,     // strconv.ParseFloat
    printFloat: real -> string,             // humanize.Ftoa
    parseBytes: string -> Option<int>,      // humanizeutil.ParseBytes
    printBytes: int -> string,              // humanizeutil.IBytes
    pebbleParses: string -> bool)           // pebble.Options.Parse

  datatype Size = Size(bytes: int, percent: real)

  datatype Rate = Rate(diskName: string, bandwidth: int)

  datatype Spec = Spec(
    path: string,
    size: Size,
    ballast: Option<Size>,
    inMemory: bool,
    attrs: seq<string>,
    rocksdb: string,
    pebble: string,
    rate: Rate,
    remote: string)

  const NO_SIZE := Size(0, 0.0)

  const NO_RATE := Rate("", 0)

  const ZERO_SPEC := Spec("", NO_SIZE, None, false, [], "", "", NO_RATE, "")

  /** `Hang` stands for a call that does not return. */
  datatype Outcome<+T> = Ok(value: T) | Err | Hang

  // ---------- Parsing ----------

  function ParseSize(env: Env, value: string, minBytes: int, minPercent: real, maxPercent: real): Option<Size>
    requires value != ""
  {
    if env.isFraction(value) then
      var percentSign := value[|value| - 1] == '%';
      var factor := env.parseFloat(if percentSign then value[..|value| - 1] else value);
      if factor.None? then None
      else
        var percent := if percentSign then factor.value else factor.value * 100.0;
        if percent < minPercent || percent > maxPercent then None else Some(Size(0, percent))
    else
      var bytes := env.parseBytes(value);
      if bytes.None? || bytes.value < minBytes then None else Some(Size(bytes.value, 0.0))
  }

  datatype PartialRate = PartialRate(rate: Rate, used: set<string>)

  function RateField(env: Env, st: PartialRate, split: string): Option<PartialRate>
  {
    if split == "" then Some(st)
    else
      var subSplits := Split(split, '=');
      if |subSplits| != 2 then None
      else
        var subField, subValue := subSplits[0], subSplits[1];
        var used := st.used + {subField};
        if subField in st.used then None
        else if subField == "" then Some(st.(used := used))
        else if subValue == "" then None
        else if subField == "disk-name" then Some(PartialRate(st.rate.(diskName := subValue), used))
        else if subField == "bandwidth" then
          if |subValue| <= 2 || subValue[|subValue| - 2..] != "/s" then None
          else
            var bandwidth := env.parseBytes(subValue[..|subValue| - 2]);
            if bandwidth.None? || bandwidth.value == 0 then None
            else Some(PartialRate(st.rate.(bandwidth := bandwidth.value), used))
        else None
  }

  function RateFields(env: Env, splits: seq<string>, st: PartialRate): Option<PartialRate>
  {
    if splits == [] then Some(st)
    else
      var next := RateField(env, st, splits[0]);
      if next.None? then None else RateFields(env, splits[1..], next.value)
  }

  function ParseRate(env: Env, value: string): Option<Rate>
  {
    var st := RateFields(env, Split(value, ':'), PartialRate(NO_RATE, {}));
    if st.None? || st.value.rate.diskName == "" then None else Some(st.value.rate)
  }

  function ParsePebble(env: Env, value: string): Outcome<string>
  {
    match PebbleOptions.Norm(PebbleOptions.Trim(value))
    case None => Hang
    case Some(options) => if env.pebbleParses(options) then Ok(options) else Err
  }

  /** The switch over field names. */
  function SetField(env: Env, ss: Spec, field: string, value: string): Outcome<Spec>
    requires value != ""
  {
    if field == "path" then Ok(ss.(path := value))
    else if field == "size" then
      var size := ParseSize(env, value, MINIMUM_STORE_SIZE, 1.0, 100.0);
      if size.None? then Err else Ok(ss.(size := size.value))
    else if field == "ballast-size" then
      var size := ParseSize(env, value, 0, 0.0, 50.0);
      if size.None? then Err else Ok(ss.(ballast := size))
    else if field == "attrs" then
      if Distinct(Split(value, ':')) then Ok(ss.(attrs := Sort(Split(value, ':')))) else Err
    else if field == "type" then
      if value == "mem" then Ok(ss.(inMemory := true)) else Err
    else if field == "rocksdb" then Ok(ss.(rocksdb := value))
    else if field == "pebble" then
      match ParsePebble(env, value)
      case Ok(options) => Ok(ss.(pebble := options))
      case Err => Err
      case Hang => Hang
    else if field == "provisioned-rate" then
      var rate := ParseRate(env, value);
      if rate.None? then Err else Ok(ss.(rate := rate.value))
    else if field == "remote-storage" then Ok(ss.(remote := value))
    else Err
  }

  datatype Partial = Partial(ss: Spec, used: set<string>)

  function Field(env: Env, st: Partial, split: string): Outcome<Partial>
  {
    if split == "" then Ok(st)
    else
      var cut := Cut(split, '=');
      var field := if cut.None? then "path" else env.lower(cut.value.0);
      var value := if cut.None? then split else cut.value.1;
      var used := st.used + {field};
      if field in st.used then Err
      else if field == "" then Ok(st.(used := used))
      else if value == "" then Err
      else
        match SetField(env, st.ss, field, value)
        case Ok(ss) => Ok(Partial(ss, used))
        case Err => Err
        case Hang => Hang
  }

  function Fields(env: Env, splits: seq<string>, st: Partial): Outcome<Partial>
  {
    if splits == [] then Ok(st)
    else
      match Field(env, st, splits[0])
      case Ok(st') => Fields(env, splits[1..], st')
      case Err => Err
      case Hang => Hang
  }

  /** The checks after the loop. */
  predicate Consistent(ss: Spec)
  {
    if ss.inMemory then ss.path == "" && ss.size != NO_SIZE && ss.ballast.None?
    else ss.path != ""
  }

  function Parse(env: Env, value: string): Outcome<Spec>
  {
    if value == "" then Err
    else
      match Fields(env, Split(value, ','), Partial(ZERO_SPEC, {}))
      case Ok(st) => if Consistent(st.ss) then Ok(st.ss) else Err
      case Err => Err
      case Hang => Hang
  }

  /** newStoreProvisionedRateSpec */
  method NewStoreProvisionedRateSpec(env: Env, value: string) returns (r: Option<Rate>)
    ensures r == ParseRate(env, value)
  {
    var spec := NO_RATE;
    var used: set<string> := {};
    var splits := Split(value, ':');
    for i := 0 to |splits|
      invariant RateFields(env, splits, PartialRate(NO_RATE, {})) == RateFields(env, splits[i..], PartialRate(spec, used))
    {
      var split := splits[i];
      if |split| == 0 {
        continue;
      }
      var subSplits := Split(split, '=');
      if |subSplits| != 2 {
        return None;
      }
      var subField, subValue := subSplits[0], subSplits[1];
      if subField in used {
        return None;
      }
      used := used + {subField};
      if |subField| == 0 {
        continue;
      }
      if |subValue| == 0 {
        return None;
      }
      if subField == "disk-name" {
        spec := spec.(diskName := subValue);
      } else if subField == "bandwidth" {
        if |subValue| <= 2 || subValue[|subValue| - 2..] != "/s" {
          return None;
        }
        subValue := subValue[..|subValue| - 2];
        var bandwidth := env.parseBytes(subValue);
        if bandwidth.None? {
          return None;
        }
        spec := spec.(bandwidth := bandwidth.value);
        if spec.bandwidth == 0 {
          return None;
        }
      } else {
        return None;
      }
    }
    if |spec.diskName| == 0 {
      return None;
    }
    return Some(spec);
  }

  /** The attrs case: reject duplicates, then sort. */
  method ParseAttrs(value: string) returns (r: Option<seq<string>>)
    ensures r == if Distinct(Split(value, ':')) then Some(Sort(Split(value, ':'))) else None
  {
    var parts := Split(value, ':');
    var attrMap: set<string> := {};
    for i := 0 to |parts|
      invariant attrMap == set k | 0 <= k < i :: parts[k]
      invariant Distinct(parts[..i])
    {
      if parts[i] in attrMap {
        var k :| 0 <= k < i && parts[k] == parts[i];
        assert !Distinct(parts);
        return None;
      }
      attrMap := attrMap + {parts[i]};
    }
    assert parts[..|parts|] == parts;
    return Some(Sort(parts));
  }

  /** NewStoreSpec */
  method NewStoreSpec(env: Env, value: string) returns (r: Outcome<Spec>)
    ensures r == Parse(env, value)
  {
    if |value| == 0 {
      return Err;
    }
    var ss := ZERO_SPEC;
    var used: set<string> := {};
    var splits := Split(value, ',');
    for i := 0 to |splits|
      invariant Fields(env, splits, Partial(ZERO_SPEC, {})) == Fields(env, splits[i..], Partial(ss, used))
    {
      var split := splits[i];
      if |split| == 0 {
        continue;
      }
      var subSplits := Cut(split, '=');
      var field, fieldValue;
      if subSplits.None? {
        field, fieldValue := "path", split;
      } else {
        field, fieldValue := env.lower(subSplits.value.0), subSplits.value.1;
      }
      if field in used {
        return Err;
      }
      used := used + {field};
      if |field| == 0 {
        continue;
      }
      if |fieldValue| == 0 {
        return Err;
      }
      var set' := StoreField(env, ss, field, fieldValue);
      if !set'.Ok? {
        return if set'.Err? then Err else Hang;
      }
      ss := set'.value;
    }
    if ss.inMemory {
      if ss.path != "" {
        return Err;
      }
      if ss.size.percent == 0.0 && ss.size.bytes == 0 {
        return Err;
      }
      if ss.ballast.Some? {
        return Err;
      }
    } else if ss.path == "" {
      return Err;
    }
    return Ok(ss);
  }

  method StoreField(env: Env, ss0: Spec, field: string, value: string) returns (r: Outcome<Spec>)
    requires value != ""
    ensures r == SetField(env, ss0, field, value)
  {
    var ss := ss0;
    if field == "path" {
      ss := ss.(path := value);
    } else if field == "size" {
      var size := ParseSize(env, value, MINIMUM_STORE_SIZE, 1.0, 100.0);
      if size.None? {
        return Err;
      }
      ss := ss.(size := size.value);
    } else if field == "ballast-size" {
      var size := ParseSize(env, value, 0, 0.0, 50.0);
      if size.None? {
        return Err;
      }
      ss := ss.(ballast := size);
    } else if field == "attrs" {
      var attrs := ParseAttrs(value);
      if attrs.None? {
        return Err;
      }
      ss := ss.(attrs := attrs.value);
    } else if field == "type" {
      if value != "mem" {
        return Err;
      }
      ss := ss.(inMemory := true);
    } else if field == "rocksdb" {
      ss := ss.(rocksdb := value);
    } else if field == "pebble" {
      var options, ends := PebbleOptions.Normalize(value);
      if !ends {
        return Hang;
      }
      if !env.pebbleParses(options) {
        return Err;
      }
      ss := ss.(pebble := options);
    } else if field == "provisioned-rate" {
      var rate := NewStoreProvisionedRateSpec(env, value);
      if rate.None? {
        return Err;
      }
      ss := ss.(rate := rate.value);
    } else if field == "remote-storage" {
      ss := ss.(remote := value);
    } else {
      return Err;
    }
    return Ok(ss);
  }
}
