/** Choosing a launch geometry, and the cache file that remembers it. */
module Autotune {
  import opened Words
  import opened Text
  import opened Binary64

  // ---------- pick_best ----------

  datatype Measurement = Measurement(blocks: U32, threadsPerBlock: U32, noncesPerThread: U32, mhs: F64)

  /** The product in u64, wrapping as a release build does. */
  function NoncesPerLaunch(m: Measurement): U64 {
    m.blocks * m.threadsPerBlock * m.noncesPerThread % TWO64
  }

  /** Finite and positive. */
  predicate Usable(m: Measurement) {
    m.mhs.Finite? && m.mhs.r > 0.0
  }

  /** `measurement_is_better`. */
  predicate IsBetter(a: Measurement, b: Measurement) {
    if Less(b.mhs, a.mhs) then true
    else if Less(a.mhs, b.mhs) then false
    else if NoncesPerLaunch(a) != NoncesPerLaunch(b) then NoncesPerLaunch(a) > NoncesPerLaunch(b)
    else if a.blocks != b.blocks then a.blocks > b.blocks
    else if a.threadsPerBlock != b.threadsPerBlock then a.threadsPerBlock > b.threadsPerBlock
    else a.noncesPerThread > b.noncesPerThread
  }

  /** On usable measurements it is a strict total order. */
  lemma StrictTotalOrder(a: Measurement, b: Measurement, c: Measurement)
    requires Usable(a) && Usable(b) && Usable(c)
    ensures !IsBetter(a, a)
    ensures a != b ==> (IsBetter(a, b) <==> !IsBetter(b, a))
    ensures IsBetter(a, b) && IsBetter(b, c) ==> IsBetter(a, c)
  {
    hide NoncesPerLaunch;
  }

  /** `r` is usable, occurs in `ms` and beats every other usable entry; `None` only if nothing is usable. */
  ghost predicate IsBest(ms: seq<Measurement>, r: Option<Measurement>) {
    match r
    case None => forall m :: m in ms ==> !Usable(m)
    case Some(b) => b in ms && Usable(b) && forall m :: m in ms && Usable(m) && m != b ==> IsBetter(b, m)
  }

  method PickBest(ms: seq<Measurement>) returns (best: Option<Measurement>)
    ensures IsBest(ms, best)
  {
    hide IsBetter, Usable;
    best := None;
    for i := 0 to |ms|
      invariant IsBest(ms[..i], best)
    {
      var m := ms[i];
      assert ms[..i + 1] == ms[..i] + [m];
      if !Usable(m) {
        continue;
      }
      match best {
        case None =>
          best := Some(m);
        case Some(b) =>
          Challenger(ms[..i], b, m);
          if IsBetter(m, b) {
            best := Some(m);
          }
      }
    }
    assert ms[..|ms|] == ms;
  }

  lemma Challenger(before: seq<Measurement>, b: Measurement, m: Measurement)
    requires IsBest(before, Some(b)) && Usable(m)
    ensures IsBest(before + [m], Some(if IsBetter(m, b) then m else b))
  {
    hide IsBetter, Usable;
    StrictTotalOrder(b, m, b);
    forall x | x in before && Usable(x) && x != b
      ensures IsBetter(m, b) ==> IsBetter(m, x)
    {
      StrictTotalOrder(m, b, x);
    }
  }

  /** The pick depends only on which measurements were taken, not on their order. */
  lemma PickIsOrderIndependent(a: seq<Measurement>, b: seq<Measurement>,
                               ra: Option<Measurement>, rb: Option<Measurement>)
    requires multiset(a) == multiset(b) && IsBest(a, ra) && IsBest(b, rb)
    ensures ra == rb
  {
    hide IsBetter, Usable;
    assert forall m :: m in a <==> m in multiset(a);
    assert forall m :: m in b <==> m in multiset(b);
    if ra.Some? && rb.Some? {
      StrictTotalOrder(ra.value, rb.value, ra.value);
    }
  }

  /** Launch size, then blocks, threads and nonces per thread: `m` comes no later than `b`. */
  ghost predicate NoLarger(m: Measurement, b: Measurement) {
    var sm, sb := m.blocks * m.threadsPerBlock * m.noncesPerThread % TWO64,
                  b.blocks * b.threadsPerBlock * b.noncesPerThread % TWO64;
    || sm < sb
    || (sm == sb && m.blocks < b.blocks)
    || (sm == sb && m.blocks == b.blocks && m.threadsPerBlock < b.threadsPerBlock)
    || (sm == sb && m.blocks == b.blocks && m.threadsPerBlock == b.threadsPerBlock
        && m.noncesPerThread <= b.noncesPerThread)
  }

  /**
   The pick is a finite, positive rate and no finite rate is larger; among equal rates no geometry is larger. Nothing is
   picked only if no rate is finite and positive.
   */
  lemma PickIsFastest(ms: seq<Measurement>, r: Option<Measurement>)
    requires IsBest(ms, r)
    ensures r.None? ==> forall m :: m in ms && m.mhs.Finite? ==> m.mhs.r <= 0.0
    ensures r.Some? ==> r.value in ms && r.value.mhs.Finite? && r.value.mhs.r > 0.0
    ensures r.Some? ==> forall m :: m in ms && m.mhs.Finite? ==>
              m.mhs.r < r.value.mhs.r || (m.mhs.r == r.value.mhs.r && NoLarger(m, r.value))
  {
    hide NoncesPerLaunch, NoLarger;
    if r.Some? {
      forall m | m in ms && m.mhs.Finite? && m.mhs.r >= r.value.mhs.r
        ensures m.mhs.r == r.value.mhs.r && NoLarger(m, r.value)
      {
        BeatenIsNoLarger(m, r.value);
      }
    }
  }

  lemma BeatenIsNoLarger(m: Measurement, b: Measurement)
    requires Usable(m) && Usable(b) && (m == b || IsBetter(b, m)) && m.mhs.r >= b.mhs.r
    ensures m.mhs.r == b.mhs.r && NoLarger(m, b)
  {
    var pm, pb := m.blocks * m.threadsPerBlock * m.noncesPerThread, b.blocks * b.threadsPerBlock * b.noncesPerThread;
    assert NoncesPerLaunch(m) == pm % TWO64 && NoncesPerLaunch(b) == pb % TWO64;
    hide NoncesPerLaunch;
    assert !IsBetter(m, b);
  }

  // ---------- Decimal numbers ----------

  function Digit(d: nat): char
    requires d < 10
  {
    '0' + d as char
  }

  /** Display of an unsigned integer. */
  function Show(n: nat): (s: string)
    ensures s != "" && forall i :: 0 <= i < |s| ==> '0' <= s[i] <= '9'
  {
    (if n < 10 then "" else Show(n / 10)) + [Digit(n % 10)]
  }

  /** The value of a run of digits, `None` on any other character. */
  function Digits(s: string): Option<nat> {
    if s == "" then Some(0)
    else
      var c := s[|s| - 1];
      match Digits(s[..|s| - 1])
      case Some(v) => if '0' <= c <= '9' then Some(10 * v + (c as int - '0' as int)) else None
      case None => None
  }

  /** `str::parse` for an unsigned integer below `bound`: an optional plus sign, at least one digit, no overflow. */
  function ParseBelow(s: string, bound: nat): Option<nat> {
    var t := if s != "" && s[0] == '+' then s[1..] else s;
    if t == "" then None
    else match Digits(t)
      case Some(v) => if v < bound then Some(v) else None
      case None => None
  }

  lemma {:induction false} DigitsOfShow(n: nat)
    ensures Digits(Show(n)) == Some(n)
  {
    var front := if n < 10 then "" else Show(n / 10);
    assert Show(n) == front + [Digit(n % 10)];
    if n >= 10 {
      DigitsOfShow(n / 10);
    }
    hide Show;
    DigitsSnoc(front, n / 10, n % 10);
  }

  lemma DigitsSnoc(s: string, v: nat, d: nat)
    requires Digits(s) == Some(v) && d < 10
    ensures Digits(s + [Digit(d)]) == Some(10 * v + d)
  {
    assert (s + [Digit(d)])[..|s|] == s;
  }

  /** One plus sign is allowed in front. */
  lemma ParseOfPlus(n: nat, bound: nat)
    ensures ParseBelow("+" + Show(n), bound) == ParseBelow(Show(n), bound)
  {
    hide Show, Digits;
    assert ("+" + Show(n))[1..] == Show(n);
    assert '0' <= Show(n)[0] <= '9';
  }

  lemma ParseOfShow(n: nat, bound: nat)
    requires n < bound
    ensures ParseBelow(Show(n), bound) == Some(n)
  {
    hide Show, Digits;
    DigitsOfShow(n);
  }

  // ---------- Quoting ----------

  /** `str::replace` of one character. */
  function ReplaceChar(s: string, c: char, repl: string): string {
    if s == "" then "" else (if s[0] == c then repl else [s[0]]) + ReplaceChar(s[1..], c, repl)
  }

  /** `str::replace` of a two-character pattern, left to right without overlap. */
  function ReplacePair(s: string, a: char, b: char, repl: string): string
    decreases |s|
  {
    if s == "" then ""
    else if |s| >= 2 && s[0] == a && s[1] == b then repl + ReplacePair(s[2..], a, b, repl)
    else [s[0]] + ReplacePair(s[1..], a, b, repl)
  }

  function Doubled(name: string): string {
    ReplaceChar(name, '\\', "\\\\")
  }

  function Escaped(name: string): string {
    ReplaceChar(Doubled(name), '"', "\\\"")
  }

  /** `unquote`: strip one pair of quotes if both are there, then the two global replaces in sequence. */
  function Unquote(v: string): string {
    var inner := if |v| >= 2 && v[0] == '"' && v[|v| - 1] == '"' then v[1..|v| - 1] else v;
    ReplacePair(ReplacePair(inner, '\\', '"', "\""), '\\', '\\', "\\")
  }

  lemma ReplaceCharCons(c: char, rest: string, x: char, repl: string)
    ensures ReplaceChar([c] + rest, x, repl) == (if c == x then repl else [c]) + ReplaceChar(rest, x, repl)
  {
    assert ([c] + rest)[1..] == rest;
  }

  lemma ReplacePairSkip(c: char, rest: string, a: char, b: char, repl: string)
    requires c != a || rest == "" || rest[0] != b
    ensures ReplacePair([c] + rest, a, b, repl) == [c] + ReplacePair(rest, a, b, repl)
  {
    assert ([c] + rest)[1..] == rest;
  }

  lemma ReplacePairHit(rest: string, a: char, b: char, repl: string)
    ensures ReplacePair([a, b] + rest, a, b, repl) == repl + ReplacePair(rest, a, b, repl)
  {
    assert ([a, b] + rest)[2..] == rest;
  }

  /** What escaping does to a name, character by character. */
  lemma EscapedCons(name: string)
    requires name != ""
    ensures Doubled(name) == (if name[0] == '\\' then "\\\\" else [name[0]]) + Doubled(name[1..])
    ensures Escaped(name) == (if name[0] == '\\' then "\\\\" else if name[0] == '"' then "\\\"" else [name[0]])
                             + Escaped(name[1..])
  {
    var rest := Doubled(name[1..]);
    if name[0] == '\\' {
      assert Doubled(name) == ['\\'] + (['\\'] + rest);
      ReplaceCharCons('\\', ['\\'] + rest, '"', "\\\"");
      ReplaceCharCons('\\', rest, '"', "\\\"");
    } else {
      ReplaceCharCons(name[0], rest, '"', "\\\"");
    }
  }

  /** The first replace turns back exactly the quotes: an escaped text never starts with a bare one. */
  lemma {:induction false} FirstReplace(name: string)
    ensures Escaped(name) != "" ==> Escaped(name)[0] != '"'
    ensures ReplacePair(Escaped(name), '\\', '"', "\"") == Doubled(name)
  {
    if name != "" {
      hide ReplaceChar, ReplacePair, Doubled, Escaped;
      EscapedCons(name);
      FirstReplace(name[1..]);
      var rest := Escaped(name[1..]);
      if name[0] == '\\' {
        ReplacePairSkip('\\', rest, '\\', '"', "\"");
        ReplacePairSkip('\\', ['\\'] + rest, '\\', '"', "\"");
        assert Escaped(name) == ['\\'] + (['\\'] + rest);
      } else if name[0] == '"' {
        ReplacePairHit(rest, '\\', '"', "\"");
      } else {
        ReplacePairSkip(name[0], rest, '\\', '"', "\"");
      }
    }
  }

  /** The second replace halves every run of backslashes. */
  lemma {:induction false} SecondReplace(name: string)
    ensures ReplacePair(Doubled(name), '\\', '\\', "\\") == name
  {
    if name != "" {
      hide ReplaceChar, ReplacePair, Doubled, Escaped;
      EscapedCons(name);
      SecondReplace(name[1..]);
      var rest := Doubled(name[1..]);
      if name[0] == '\\' {
        ReplacePairHit(rest, '\\', '\\', "\\");
      } else {
        ReplacePairSkip(name[0], rest, '\\', '\\', "\\");
      }
    }
  }

  /** Quoting round-trips for every name, whatever runs of backslashes and quotes it holds. */
  lemma UnquoteOfQuoted(name: string)
    ensures Unquote("\"" + Escaped(name) + "\"") == name
  {
    hide ReplaceChar, ReplacePair, Doubled, Escaped;
    var v := "\"" + Escaped(name) + "\"";
    assert v[1..|v| - 1] == Escaped(name);
    FirstReplace(name);
    SecondReplace(name);
  }

  // ---------- The cache file ----------

  datatype CachedGeometry = CachedGeometry(
    deviceIndex: U64, deviceName: string, blocks: U32, threadsPerBlock: U32, noncesPerThread: U32, mhs: F64)

  /** Display and FromStr of f64. */
  datatype FloatFormat = FloatFormat(show: F64 -> string, parse: string -> Option<F64>)

  /** Displaying `x` and parsing it back is exact, and the text has no white space. */
  ghost predicate Faithful(fmt: FloatFormat, x: F64) {
    fmt.parse(fmt.show(x)) == Some(x) && fmt.show(x) != "" && forall c :: c in fmt.show(x) ==> !IsSpace(c)
  }

  function Entry(key: string, val: string): string {
    key + " = " + val
  }

  /** `to_toml_string`. */
  function ToToml(g: CachedGeometry, fmt: FloatFormat): string {
    Entry("device_index", Show(g.deviceIndex)) + "\n"
    + (Entry("device_name", "\"" + Escaped(g.deviceName) + "\"") + "\n" + Dimensions(g, fmt))
  }

  function Dimensions(g: CachedGeometry, fmt: FloatFormat): string {
    Entry("blocks", Show(g.blocks)) + "\n"
    + (Entry("threads_per_block", Show(g.threadsPerBlock)) + "\n"
       + (Entry("nonces_per_thread", Show(g.noncesPerThread)) + "\n" + (Entry("mh_s", fmt.show(g.mhs)) + "\n")))
  }

  /** The locals of `parse_toml`. */
  datatype Fields = Fields(
    deviceIndex: Option<nat>, deviceName: Option<string>, blocks: Option<nat>, threadsPerBlock: Option<nat>,
    noncesPerThread: Option<nat>, mhs: Option<F64>)

  const NO_FIELDS: Fields := Fields(None, None, None, None, None, None)

  function SetField(f: Fields, key: string, val: string, fmt: FloatFormat): Fields {
    if key == "device_index" then f.(deviceIndex := ParseBelow(val, TWO64))
    else if key == "device_name" then f.(deviceName := Some(Unquote(val)))
    else if key == "blocks" then f.(blocks := ParseBelow(val, TWO32))
    else if key == "threads_per_block" then f.(threadsPerBlock := ParseBelow(val, TWO32))
    else if key == "nonces_per_thread" then f.(noncesPerThread := ParseBelow(val, TWO32))
    else if key == "mh_s" then f.(mhs := fmt.parse(val))
    else f
  }

  /** One line: blank lines and comments are skipped, a line without `=` is fatal. */
  function ParseLine(f: Fields, line: string, fmt: FloatFormat): Option<Fields> {
    var t := Trim(line);
    if t == "" || t[0] == '#' then Some(f)
    else
      var k := IndexOf(t, '=');
      if k == |t| then None else Some(SetField(f, Trim(t[..k]), Trim(t[k + 1..]), fmt))
  }

  function ParseLines(f: Fields, lines: seq<string>, fmt: FloatFormat): Option<Fields>
    decreases |lines|
  {
    if lines == [] then Some(f)
    else match ParseLine(f, lines[0], fmt)
      case None => None
      case Some(g) => ParseLines(g, lines[1..], fmt)
  }

  /** Every field present and every dimension at least one. */
  function Finish(f: Fields): Option<CachedGeometry> {
    match f
    case Fields(Some(i), Some(name), Some(b), Some(t), Some(n), Some(m)) =>
      if i < TWO64 && 0 < b < TWO32 && 0 < t < TWO32 && 0 < n < TWO32 then Some(CachedGeometry(i, name, b, t, n, m))
      else None
    case _ => None
  }

  function Parsed(s: string, fmt: FloatFormat): Option<CachedGeometry> {
    match ParseLines(NO_FIELDS, Lines(s), fmt)
    case None => None
    case Some(f) => Finish(f)
  }

  /** `parse_toml`. */
  method ParseToml(s: string, fmt: FloatFormat) returns (g: Option<CachedGeometry>)
    ensures g == Parsed(s, fmt)
  {
    hide SetField, Lines, Trim, Finish;
    var lines := Lines(s);
    var f := NO_FIELDS;
    for i := 0 to |lines|
      invariant ParseLines(NO_FIELDS, lines, fmt) == ParseLines(f, lines[i..], fmt)
    {
      assert lines[i..][1..] == lines[i + 1..];
      var line := Trim(lines[i]);
      if line == "" || line[0] == '#' {
        continue;
      }
      var k := IndexOf(line, '=');
      if k == |line| {
        return None;
      }
      f := SetField(f, Trim(line[..k]), Trim(line[k + 1..]), fmt);
    }
    return Finish(f);
  }

  predicate Trimmed(s: string) {
    s != "" && !IsSpace(s[0]) && !IsSpace(s[|s| - 1])
  }

  predicate PlainKey(key: string) {
    Trimmed(key) && '=' !in key && '\n' !in key && key[0] != '#'
  }

  lemma KeysArePlain()
    ensures PlainKey("device_index") && PlainKey("device_name") && PlainKey("blocks")
    ensures PlainKey("threads_per_block") && PlainKey("nonces_per_thread") && PlainKey("mh_s")
  {
    hide PlainKey;
    DeviceKeysArePlain();
    ThreadKeysArePlain();
    ShortKeysArePlain();
  }

  lemma DeviceKeysArePlain()
    ensures PlainKey("device_index") && PlainKey("device_name")
  {
  }

  lemma ThreadKeysArePlain()
    ensures PlainKey("threads_per_block") && PlainKey("nonces_per_thread")
  {
  }

  lemma ShortKeysArePlain()
    ensures PlainKey("blocks") && PlainKey("mh_s")
  {
  }

  /** The equals sign of an entry splits it into its key and its value. */
  lemma EntrySplits(key: string, val: string)
    requires PlainKey(key) && Trimmed(val)
    ensures var line := Entry(key, val);
            && Trim(line) == line != "" && line[0] != '#' && IndexOf(line, '=') == |key| + 1 < |line|
            && Trim(line[..|key| + 1]) == key && Trim(line[|key| + 2..]) == val
  {
    hide Trim, IndexOf;
    var line := Entry(key, val);
    TrimNothing(line);
    IndexIs(line, '=', |key| + 1);
    assert line[..|key| + 1] == key + [' '] && line[|key| + 2..] == " " + val;
    TrimOneAfter(key, ' ');
    TrimOneBefore(val);
  }

  /** An entry parses to its key and its value. */
  lemma EntryParses(f: Fields, key: string, val: string, fmt: FloatFormat)
    requires PlainKey(key) && Trimmed(val)
    ensures ParseLine(f, Entry(key, val), fmt) == Some(SetField(f, key, val, fmt))
  {
    hide SetField, Trim, IndexOf, Entry, PlainKey, Trimmed;
    EntrySplits(key, val);
  }

  lemma EntryThenRest(f: Fields, key: string, val: string, rest: string, fmt: FloatFormat)
    requires PlainKey(key) && Trimmed(val) && '\n' !in val
    ensures ParseLines(f, Lines(Entry(key, val) + "\n" + rest), fmt)
            == ParseLines(SetField(f, key, val, fmt), Lines(rest), fmt)
  {
    hide SetField, Lines, ParseLine;
    var line := Entry(key, val);
    EntryParses(f, key, val, fmt);
    LinesCons(line, rest);
    assert ([line] + Lines(rest))[1..] == Lines(rest);
  }

  lemma ShowIsPlain(n: nat)
    ensures Trimmed(Show(n)) && '\n' !in Show(n)
  {
    hide Show;
  }

  lemma {:induction false} ReplaceCharKeepsOut(s: string, x: char, c: char, repl: string)
    requires x !in s && x !in repl
    ensures x !in ReplaceChar(s, c, repl)
  {
    if s != "" {
      ReplaceCharKeepsOut(s[1..], x, c, repl);
    }
  }

  lemma {:induction false} ReplacePairKeepsOut(s: string, x: char, a: char, b: char, repl: string)
    requires x !in s && x !in repl
    ensures x !in ReplacePair(s, a, b, repl)
    decreases |s|
  {
    if |s| >= 2 && s[0] == a && s[1] == b {
      ReplacePairKeepsOut(s[2..], x, a, b, repl);
    } else if s != "" {
      ReplacePairKeepsOut(s[1..], x, a, b, repl);
    }
  }

  lemma QuotedIsPlain(name: string)
    requires '\n' !in name
    ensures var q := "\"" + Escaped(name) + "\""; Trimmed(q) && '\n' !in q
  {
    ReplaceCharKeepsOut(name, '\n', '\\', "\\\\");
    ReplaceCharKeepsOut(Doubled(name), '\n', '"', "\\\"");
    hide ReplaceChar;
  }

  lemma SetFieldByKey(f: Fields, val: string, fmt: FloatFormat)
    ensures SetField(f, "device_index", val, fmt) == f.(deviceIndex := ParseBelow(val, TWO64))
    ensures SetField(f, "device_name", val, fmt) == f.(deviceName := Some(Unquote(val)))
    ensures SetField(f, "blocks", val, fmt) == f.(blocks := ParseBelow(val, TWO32))
    ensures SetField(f, "threads_per_block", val, fmt) == f.(threadsPerBlock := ParseBelow(val, TWO32))
    ensures SetField(f, "nonces_per_thread", val, fmt) == f.(noncesPerThread := ParseBelow(val, TWO32))
    ensures SetField(f, "mh_s", val, fmt) == f.(mhs := fmt.parse(val))
  {
    hide ParseBelow, Unquote;
    assert "threads_per_block"[0] != "nonces_per_thread"[0];
  }

  /** The three dimension lines and the rate. */
  lemma TailParses(f: Fields, g: CachedGeometry, fmt: FloatFormat)
    requires Faithful(fmt, g.mhs)
    ensures ParseLines(f, Lines(Dimensions(g, fmt)), fmt)
            == Some(f.(blocks := Some(g.blocks), threadsPerBlock := Some(g.threadsPerBlock),
                       noncesPerThread := Some(g.noncesPerThread), mhs := Some(g.mhs)))
  {
    hide Lines, Show, Unquote, ParseBelow, Entry, SetField, PlainKey, ParseLines;
    KeysArePlain();
    ShowIsPlain(g.blocks);
    ShowIsPlain(g.threadsPerBlock);
    ShowIsPlain(g.noncesPerThread);
    ParseOfShow(g.blocks, TWO32);
    ParseOfShow(g.threadsPerBlock, TWO32);
    ParseOfShow(g.noncesPerThread, TWO32);
    var last := Entry("mh_s", fmt.show(g.mhs)) + "\n";
    assert last == last + "";
    var r5 := last;
    var r4 := Entry("nonces_per_thread", Show(g.noncesPerThread)) + "\n" + r5;
    var r3 := Entry("threads_per_block", Show(g.threadsPerBlock)) + "\n" + r4;
    EntryThenRest(f, "blocks", Show(g.blocks), r3, fmt);
    SetFieldByKey(f, Show(g.blocks), fmt);
    var f3 := f.(blocks := Some(g.blocks));
    EntryThenRest(f3, "threads_per_block", Show(g.threadsPerBlock), r4, fmt);
    SetFieldByKey(f3, Show(g.threadsPerBlock), fmt);
    var f4 := f3.(threadsPerBlock := Some(g.threadsPerBlock));
    EntryThenRest(f4, "nonces_per_thread", Show(g.noncesPerThread), r5, fmt);
    SetFieldByKey(f4, Show(g.noncesPerThread), fmt);
    var f5 := f4.(noncesPerThread := Some(g.noncesPerThread));
    EntryThenRest(f5, "mh_s", fmt.show(g.mhs), "", fmt);
    SetFieldByKey(f5, fmt.show(g.mhs), fmt);
    NoLines(f5.(mhs := Some(g.mhs)), fmt);
  }

  lemma NoLines(f: Fields, fmt: FloatFormat)
    ensures ParseLines(f, Lines(""), fmt) == Some(f)
  {
  }

  /** What a geometry prints parses back to it. */
  lemma RoundTrip(g: CachedGeometry, fmt: FloatFormat)
    requires '\n' !in g.deviceName && g.blocks > 0 && g.threadsPerBlock > 0 && g.noncesPerThread > 0
    requires Faithful(fmt, g.mhs)
    ensures Parsed(ToToml(g, fmt), fmt) == Some(g)
  {
    hide Lines, Show, Escaped, Unquote, ParseBelow, Entry, SetField, Dimensions, ParseLines, Faithful, PlainKey;
    KeysArePlain();
    var q := "\"" + Escaped(g.deviceName) + "\"";
    QuotedIsPlain(g.deviceName);
    UnquoteOfQuoted(g.deviceName);
    ShowIsPlain(g.deviceIndex);
    ParseOfShow(g.deviceIndex, TWO64);
    var r2 := Dimensions(g, fmt);
    var r1 := Entry("device_name", q) + "\n" + r2;
    EntryThenRest(NO_FIELDS, "device_index", Show(g.deviceIndex), r1, fmt);
    SetFieldByKey(NO_FIELDS, Show(g.deviceIndex), fmt);
    var f1 := NO_FIELDS.(deviceIndex := Some(g.deviceIndex));
    EntryThenRest(f1, "device_name", q, r2, fmt);
    SetFieldByKey(f1, q, fmt);
    TailParses(f1.(deviceName := Some(g.deviceName)), g, fmt);
  }

  // ---------- The condition is exact ----------

  lemma ParsedNameIsOneLine(f: Fields, line: string, fmt: FloatFormat)
    requires '\n' !in line && (f.deviceName.Some? ==> '\n' !in f.deviceName.value)
    ensures var r := ParseLine(f, line, fmt); r.Some? && r.value.deviceName.Some? ==> '\n' !in r.value.deviceName.value
  {
    hide Trim, Unquote, ParseBelow;
    var t := Trim(line);
    TrimKeepsOut(line, '\n');
    if t != "" {
      var k := IndexOf(t, '=');
      if k < |t| {
        TrimKeepsOut(t[k + 1..], '\n');
        UnquoteKeepsOut(Trim(t[k + 1..]), '\n');
      }
    }
  }

  lemma UnquoteKeepsOut(v: string, x: char)
    requires x !in v && x != '"' && x != '\\'
    ensures x !in Unquote(v)
  {
    hide ReplacePair;
    var inner := if |v| >= 2 && v[0] == '"' && v[|v| - 1] == '"' then v[1..|v| - 1] else v;
    ReplacePairKeepsOut(inner, x, '\\', '"', "\"");
    ReplacePairKeepsOut(ReplacePair(inner, '\\', '"', "\""), x, '\\', '\\', "\\");
  }

  lemma {:induction false} ParsedNamesAreOneLine(f: Fields, lines: seq<string>, fmt: FloatFormat)
    requires (forall l :: l in lines ==> '\n' !in l) && (f.deviceName.Some? ==> '\n' !in f.deviceName.value)
    ensures var r := ParseLines(f, lines, fmt);
            r.Some? && r.value.deviceName.Some? ==> '\n' !in r.value.deviceName.value
    decreases |lines|
  {
    hide ParseLine;
    if lines != [] {
      ParsedNameIsOneLine(f, lines[0], fmt);
      if ParseLine(f, lines[0], fmt).Some? {
        ParsedNamesAreOneLine(ParseLine(f, lines[0], fmt).value, lines[1..], fmt);
      }
    }
  }

  /** The cache round-trips exactly for names without a newline and dimensions that can mine. */
  lemma RoundTripIff(g: CachedGeometry, fmt: FloatFormat)
    requires Faithful(fmt, g.mhs)
    ensures Parsed(ToToml(g, fmt), fmt) == Some(g)
            <==> '\n' !in g.deviceName && g.blocks > 0 && g.threadsPerBlock > 0 && g.noncesPerThread > 0
  {
    hide Faithful, ToToml, Lines, ParseLines;
    if '\n' !in g.deviceName && g.blocks > 0 && g.threadsPerBlock > 0 && g.noncesPerThread > 0 {
      RoundTrip(g, fmt);
    } else {
      LinesHaveNoNewline(ToToml(g, fmt));
      ParsedNamesAreOneLine(NO_FIELDS, Lines(ToToml(g, fmt)), fmt);
    }
  }
}
