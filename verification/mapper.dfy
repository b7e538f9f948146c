/** The driver of the mapping pass, `Mapper::runOnOperation`
    (lib/Optimizer/Transforms/Mapping.cpp:398-621): it reads the device
    option, scans the single block for sources and wires, sizes and builds
    the device, pads the program with ancilla wires, routes from the identity
    placement, prunes unused ancillas and reports the final placement of every
    program qubit. */
module Mapper {
  import opened Common
  import opened Hardware
  import opened Sabre

  /** The errors the pass reports. `CapacityExceeded` is the one failure it
      signals without a message. */
  datatype Diagnostic =
    | MultipleBlocks
    | PathMissing(path: string)
    | MissingCloseParen
    | FilenameRequired(option: string)
    | UnnamedMeasurement(op: nat)
    | NotValueSemantics(op: nat)
    | TooManyQubitOperands(op: nat)
    | UntrackedWire(op: nat)
    | CapacityExceeded
    | EmptyTarget
    | FewerQubits(option: string, deviceQubits: nat, programQubits: nat)

  //===--------------------------------------------------------------------===//
  // StringRef helpers
  //===--------------------------------------------------------------------===//

  /** ASCII lower case, as `equals_insensitive` compares. */
  function ToLower(ch: char): char
  {
    if 'A' <= ch <= 'Z' then (ch as int - 'A' as int + 'a' as int) as char else ch
  }

  /** `StringRef::equals_insensitive`. */
  predicate EqualsInsensitive(a: string, b: string)
  {
    |a| == |b| && forall k :: 0 <= k < |a| ==> ToLower(a[k]) == ToLower(b[k])
  }

  /** The characters `StringRef::ltrim` drops by default. */
  predicate IsSpace(ch: char)
  {
    ch == ' ' || ch == '\t' || ch == '\n' || ch == '\U{000B}' || ch == '\U{000C}' || ch == '\r'
  }

  /** `StringRef::ltrim`: leading white space is dropped. */
  function LTrim(s: string): (t: string)
    ensures |t| <= |s| && t == s[|s| - |t|..]
    ensures forall k :: 0 <= k < |s| - |t| ==> IsSpace(s[k])
    ensures |t| > 0 ==> !IsSpace(t[0])
    decreases |s|
  {
    if |s| > 0 && IsSpace(s[0]) then LTrim(s[1..]) else s
  }

  /** Trimming twice trims nothing more. */
  lemma LTrimIdempotent(s: string)
    ensures LTrim(LTrim(s)) == LTrim(s)
  {
  }

  /** The device name: the option up to its first '(' (`take_front` of
      `find_first_of('(')`), or the whole option when it has none. */
  function DeviceName(option: string): (name: string)
    ensures |name| <= |option| && name == option[..|name|]
    ensures '(' !in name
    ensures |name| < |option| ==> option[|name|] == '('
    decreases |option|
  {
    if |option| == 0 || option[0] == '(' then []
    else [option[0]] + DeviceName(option[1..])
  }

  predicate IsDigit(ch: char)
  {
    '0' <= ch <= '9'
  }

  /** The number of leading decimal digits. */
  function DigitRun(s: string): (n: nat)
    ensures n <= |s|
    ensures forall k :: 0 <= k < n ==> IsDigit(s[k])
    ensures n < |s| ==> !IsDigit(s[n])
    decreases |s|
  {
    if |s| > 0 && IsDigit(s[0]) then 1 + DigitRun(s[1..]) else 0
  }

  /** The value of a string of decimal digits. */
  function DigitsValue(s: string): nat
    requires forall k :: 0 <= k < |s| ==> IsDigit(s[k])
    decreases |s|
  {
    if |s| == 0 then 0
    else
      assert IsDigit(s[|s| - 1]);
      DigitsValue(s[..|s| - 1]) * 10 + (s[|s| - 1] as int - '0' as int)
  }

  /** `StringRef::consumeInteger(10, size_t&)`: the longest run of leading
      digits is read; the call fails, consuming nothing and leaving the target
      unchanged, when there is no digit or the value does not fit in 64 bits.
      (The library detects overflow digit by digit; for radix 10 that check
      fires exactly when the run's value reaches 2^64.) */
  function ConsumeInteger(s: string): (r: Option<(nat, string)>)
    ensures r.Some? ==>
              && r.value.0 < SizeModulus
              && |r.value.1| < |s| && r.value.1 == s[|s| - |r.value.1|..]
              && (forall k :: 0 <= k < |s| - |r.value.1| ==> IsDigit(s[k]))
              && (|r.value.1| > 0 ==> !IsDigit(r.value.1[0]))
    ensures r.None? <==> DigitRun(s) == 0 || DigitsValue(s[..DigitRun(s)]) >= SizeModulus
  {
    var n := DigitRun(s);
    if n == 0 then None
    else
      var v := DigitsValue(s[..n]);
      if v >= SizeModulus then None else Some((v, s[n..]))
  }

  /** Reading back a printed number gives the number and the rest of the
      string, as long as the number fits in 64 bits and the rest does not
      start with a digit. */
  lemma ConsumePrinted(n: nat, rest: string)
    requires n < SizeModulus && (|rest| == 0 || !IsDigit(rest[0]))
    ensures ConsumeInteger(NatToString(n) + rest) == Some((n, rest))
  {
    var s := NatToString(n) + rest;
    DigitRunOfPrinted(NatToString(n), rest);
    assert s[..|NatToString(n)|] == NatToString(n);
    PrintedValue(n);
    assert s[|NatToString(n)|..] == rest;
  }

  lemma {:induction false} DigitRunOfPrinted(digits: string, rest: string)
    requires forall k :: 0 <= k < |digits| ==> IsDigit(digits[k])
    requires |rest| == 0 || !IsDigit(rest[0])
    ensures DigitRun(digits + rest) == |digits|
    decreases |digits|
  {
    if |digits| > 0 {
      assert (digits + rest)[1..] == digits[1..] + rest;
      DigitRunOfPrinted(digits[1..], rest);
    } else {
      assert digits + rest == rest;
    }
  }

  lemma {:induction false} PrintedValue(n: nat)
    ensures DigitsValue(NatToString(n)) == n
    decreases n
  {
    var s := NatToString(n);
    if n >= 10 {
      assert s[..|s| - 1] == NatToString(n / 10);
      PrintedValue(n / 10);
      assert DigitsValue(s) == n / 10 * 10 + n % 10;
    } else {
      assert s[..0] == [];
    }
  }

  /** What the option parser leaves: the device name, the two dimensions
      (0 when not given), the file name of a `file(...)` device and the
      errors reported so far. */
  datatype DeviceOption = DeviceOption(name: string, d0: nat, d1: nat, filename: string, errors: seq<Diagnostic>)

  /** `consume_front` of one character. */
  function ConsumeFront(s: string, ch: char): (r: Option<string>)
    ensures r.Some? <==> |s| > 0 && s[0] == ch
    ensures r.Some? ==> s == [ch] + r.value
  {
    if |s| > 0 && s[0] == ch then Some(s[1..]) else None
  }

  /** An integer read into a dimension that keeps its previous value when
      `consumeInteger` fails. */
  function ReadDim(s: string, fallback: nat): (r: (nat, string))
    ensures fallback < SizeModulus ==> r.0 < SizeModulus
  {
    match ConsumeInteger(s)
    case Some((v, rest)) => (v, rest)
    case None => (fallback, s)
  }

  /** The dimension list after the '(' of a non-file device
      (Mapping.cpp:455-464): spaces, a first integer, spaces, an optional
      ',' directly followed by a second integer, spaces and the closing ')'.
      Text after the ')' is ignored. */
  function ParseDims(s: string): (r: (nat, nat, bool))
    ensures r.0 < SizeModulus && r.1 < SizeModulus
  {
    var (d0, s1) := ReadDim(LTrim(s), 0);
    var (d1, s3) := ReadSecond(LTrim(s1));
    (d0, d1, Closes(s3))
  }

  /** The optional ',' and second dimension. */
  function ReadSecond(s: string): (r: (nat, string))
    ensures r.0 < SizeModulus
  {
    match ConsumeFront(s, ',')
    case Some(t) => ReadDim(t, 0)
    case None => (0, s)
  }

  /** Spaces and the closing ')'. */
  predicate Closes(s: string)
  {
    ConsumeFront(LTrim(s), ')').Some?
  }

  /** The `file(...)` branch (Mapping.cpp:433-452): after the '(' and any
      spaces, the text up to a final ')' names the file, which must exist. */
  function ParseFile(option: string, rest: string, fileExists: string -> bool): (o: (string, seq<Diagnostic>))
    ensures |o.1| <= 1
  {
    match ConsumeFront(rest, '(')
    case None => ("", [FilenameRequired(option)])
    case Some(t) =>
      var u := LTrim(t);
      if |u| > 0 && u[|u| - 1] == ')' then
        var filename := u[..|u| - 1];
        (filename, if fileExists(filename) then [] else [PathMissing(filename)])
      else ("", [MissingCloseParen])
  }

  /** The device option of the pass (Mapping.cpp:422-465). The name is
      compared with "file" ignoring case; every other name may be followed by
      a parenthesised dimension list. */
  function ParseOption(option: string, fileExists: string -> bool): (o: DeviceOption)
    ensures o.name == DeviceName(option)
    ensures o.d0 < SizeModulus && o.d1 < SizeModulus && |o.errors| <= 1
    ensures EqualsInsensitive(o.name, "file") ==> o.d0 == 0 && o.d1 == 0
    ensures !EqualsInsensitive(o.name, "file") ==> o.filename == []
  {
    var name := DeviceName(option);
    var rest := if |name| < |option| then option[|name|..] else option;
    if EqualsInsensitive(name, "file") then
      var (filename, errors) := ParseFile(option, rest, fileExists);
      DeviceOption(name, 0, 0, filename, errors)
    else
      match ConsumeFront(rest, '(')
      case None => DeviceOption(name, 0, 0, [], [])
      case Some(t) =>
        var (d0, d1, closed) := ParseDims(t);
        DeviceOption(name, d0, d1, [], if closed then [] else [MissingCloseParen])
  }

  lemma DeviceNameOf(name: string, rest: string)
    requires '(' !in name
    ensures DeviceName(name + "(" + rest) == name
    decreases |name|
  {
    if |name| == 0 {
      assert name + "(" + rest == "(" + rest;
    } else {
      assert (name + "(" + rest)[1..] == name[1..] + "(" + rest;
      DeviceNameOf(name[1..], rest);
    }
  }

  /** A non-file option without '(' has no dimensions and no error. */
  lemma ParseBareName(option: string, fileExists: string -> bool)
    requires '(' !in option && !EqualsInsensitive(option, "file")
    ensures ParseOption(option, fileExists) == DeviceOption(option, 0, 0, [], [])
  {
    assert DeviceName(option) == option;
  }

  /** A non-file option with a '(' reads the dimension list after it. */
  lemma ParseWithDims(name: string, t: string, fileExists: string -> bool)
    requires '(' !in name && !EqualsInsensitive(name, "file")
    ensures var (d0, d1, closed) := ParseDims(t);
      ParseOption(name + "(" + t, fileExists) == DeviceOption(name, d0, d1, [], if closed then [] else [MissingCloseParen])
  {
    var option := name + "(" + t;
    DeviceNameOf(name, t);
    assert option[|name|..] == "(" + t;
    assert ConsumeFront("(" + t, '(') == Some(t);
  }

  lemma LTrimNoSpace(s: string)
    requires |s| == 0 || !IsSpace(s[0])
    ensures LTrim(s) == s
  {
  }

  lemma ReadPrinted(n: nat, rest: string, fallback: nat)
    requires n < SizeModulus && (|rest| == 0 || !IsDigit(rest[0]))
    ensures ReadDim(NatToString(n) + rest, fallback) == (n, rest)
    ensures LTrim(NatToString(n) + rest) == NatToString(n) + rest
  {
    ConsumePrinted(n, rest);
    LTrimNoSpace(NatToString(n) + rest);
  }

  lemma ConsumeFrontOf(ch: char, rest: string)
    ensures ConsumeFront([ch] + rest, ch) == Some(rest)
  {
    assert ([ch] + rest)[1..] == rest;
  }

  /** ParseDims from the results of its three steps. */
  lemma ParseDimsOf(s: string, d0: nat, s1: string, d1: nat, s3: string)
    requires ReadDim(LTrim(s), 0) == (d0, s1) && ReadSecond(LTrim(s1)) == (d1, s3)
    ensures ParseDims(s) == (d0, d1, Closes(s3))
  {
  }

  lemma FirstOfPrinted(w: nat, tail: string)
    requires w < SizeModulus && |tail| > 0 && tail[0] == ','
    ensures ReadDim(LTrim(NatToString(w) + tail), 0) == (w, tail)
  {
    ReadPrinted(w, tail, 0);
  }

  lemma ClosesParen()
    ensures Closes(")")
  {
    LTrimNoSpace(")");
  }

  lemma ReadSecondOf(t: string, d: nat, rest: string)
    requires ReadDim(t, 0) == (d, rest)
    ensures ReadSecond([','] + t) == (d, rest)
  {
    ConsumeFrontOf(',', t);
  }

  lemma SecondOfPrinted(h: nat, second: string, tail: string)
    requires h < SizeModulus && second == NatToString(h) + ")" && tail == [','] + second
    ensures ReadSecond(LTrim(tail)) == (h, ")") && Closes(")")
  {
    LTrimNoSpace(tail);
    ReadPrinted(h, ")", 0);
    ReadSecondOf(second, h, ")");
    ClosesParen();
  }

  lemma DimsTwoTail(w: nat, h: nat, second: string, tail: string)
    requires w < SizeModulus && h < SizeModulus
    requires second == NatToString(h) + ")" && tail == [','] + second
    ensures ParseDims(NatToString(w) + tail) == (w, h, true)
  {
    FirstOfPrinted(w, tail);
    SecondOfPrinted(h, second, tail);
    ParseDimsOf(NatToString(w) + tail, w, tail, h, ")");
  }

  lemma CommaTail(a: string, b: string)
    ensures a + "," + b + ")" == a + ([','] + (b + ")"))
  {
  }

  lemma DimsTwo(w: nat, h: nat)
    requires w < SizeModulus && h < SizeModulus
    ensures ParseDims(NatToString(w) + "," + NatToString(h) + ")") == (w, h, true)
  {
    CommaTail(NatToString(w), NatToString(h));
    DimsTwoTail(w, h, NatToString(h) + ")", [','] + (NatToString(h) + ")"));
  }

  lemma DimsOne(n: nat)
    requires n < SizeModulus
    ensures ParseDims(NatToString(n) + ")") == (n, 0, true)
  {
    ReadPrinted(n, ")", 0);
    LTrimNoSpace(")");
  }

  lemma DimsUnclosed(n: nat)
    requires n < SizeModulus
    ensures ParseDims(NatToString(n)) == (n, 0, false)
  {
    ReadPrinted(n, "", 0);
    assert NatToString(n) + "" == NatToString(n);
    LTrimNoSpace("");
  }

  /** `name(w,h)` with both numbers printed in decimal reads back as the name
      and both dimensions, without error. */
  lemma ParseTwoDims(name: string, w: nat, h: nat, fileExists: string -> bool)
    requires '(' !in name && !EqualsInsensitive(name, "file") && w < SizeModulus && h < SizeModulus
    ensures ParseOption(name + "(" + NatToString(w) + "," + NatToString(h) + ")", fileExists)
              == DeviceOption(name, w, h, [], [])
  {
    var t := NatToString(w) + "," + NatToString(h) + ")";
    assert name + "(" + NatToString(w) + "," + NatToString(h) + ")" == name + "(" + t;
    ParseWithDims(name, t, fileExists);
    DimsTwo(w, h);
  }

  /** `name(n)` reads back as the name and first dimension n; the second
      stays 0. */
  lemma ParseOneDim(name: string, n: nat, fileExists: string -> bool)
    requires '(' !in name && !EqualsInsensitive(name, "file") && n < SizeModulus
    ensures ParseOption(name + "(" + NatToString(n) + ")", fileExists) == DeviceOption(name, n, 0, [], [])
  {
    var t := NatToString(n) + ")";
    assert name + "(" + NatToString(n) + ")" == name + "(" + t;
    ParseWithDims(name, t, fileExists);
    DimsOne(n);
  }

  /** Without its closing ')' a dimension list is reported. */
  lemma ParseUnclosed(name: string, n: nat, fileExists: string -> bool)
    requires '(' !in name && !EqualsInsensitive(name, "file") && n < SizeModulus
    ensures ParseOption(name + "(" + NatToString(n), fileExists) == DeviceOption(name, n, 0, [], [MissingCloseParen])
  {
    ParseWithDims(name, NatToString(n), fileExists);
    DimsUnclosed(n);
  }

  /** No space may follow the ',': in `grid(3, 4)` the second dimension is
      left unread and a missing ')' is reported. */
  lemma SpaceAfterComma(w: nat, h: nat)
    requires w < SizeModulus
    ensures ParseDims(NatToString(w) + ", " + NatToString(h) + ")") == (w, 0, false)
  {
    var second := [' '] + (NatToString(h) + ")");
    var tail := [','] + second;
    assert ", " == [','] + [' '];
    assert NatToString(w) + ", " + NatToString(h) + ")" == NatToString(w) + tail;
    ReadPrinted(w, tail, 0);
    LTrimNoSpace(tail);
    SpacedSecond(h);
    var (d0, s1) := ReadDim(LTrim(NatToString(w) + tail), 0);
    assert d0 == w && s1 == tail;
  }

  lemma SpacedSecond(h: nat)
    ensures var second := [' '] + (NatToString(h) + ")");
      ReadSecond([','] + second) == (0, second) && !Closes(second)
  {
    var digits := NatToString(h) + ")";
    var second := [' '] + digits;
    ConsumeFrontOf(',', second);
    assert ReadDim(second, 0) == (0, second) by {
      assert DigitRun(second) == 0;
    }
    assert LTrim(second) == digits by {
      assert second[1..] == digits;
      LTrimNoSpace(digits);
    }
    assert digits[0] == NatToString(h)[0];
  }

  /** A file option reads its path with `ParseFile`. */
  lemma ParseWithFile(name: string, t: string, fileExists: string -> bool)
    requires '(' !in name && EqualsInsensitive(name, "file")
    ensures var (filename, errors) := ParseFile(name + "(" + t, "(" + t, fileExists);
      ParseOption(name + "(" + t, fileExists) == DeviceOption(name, 0, 0, filename, errors)
  {
    var option := name + "(" + t;
    DeviceNameOf(name, t);
    assert option[|name|..] == "(" + t;
  }

  lemma FileOfPath(option: string, path: string, fileExists: string -> bool)
    requires |path| == 0 || !IsSpace(path[0])
    ensures ParseFile(option, "(" + (path + ")"), fileExists) == (path, if fileExists(path) then [] else [PathMissing(path)])
  {
    ConsumeFrontOf('(', path + ")");
    LTrimNoSpace(path + ")");
    assert (path + ")")[..|path|] == path;
  }

  /** `file(path)` names the file, and the only error is a path that does
      not exist. */
  lemma ParseFileOption(path: string, fileExists: string -> bool)
    requires |path| == 0 || !IsSpace(path[0])
    ensures var o := ParseOption("file(" + path + ")", fileExists);
      && o.name == "file" && o.filename == path
      && o.errors == (if fileExists(path) then [] else [PathMissing(path)])
  {
    assert "file(" + path + ")" == "file" + "(" + (path + ")");
    ParseWithFile("file", path + ")", fileExists);
    FileOfPath("file(" + path + ")", path, fileExists);
  }

  /** A `file` device without a parenthesised path is reported. */
  lemma FileWithoutPath(fileExists: string -> bool)
    ensures ParseOption("file", fileExists).errors == [FilenameRequired("file")]
  {
    assert DeviceName("file") == "file";
  }

  //===--------------------------------------------------------------------===//
  // The sanity scan (Mapping.cpp:467-526)
  //===--------------------------------------------------------------------===//

  /** What the IR guarantees about the block: gates and measurements have one
      result wire per operand wire, a null wire defines one wire from
      nothing, and no wire is defined twice. */
  predicate WellFormedBlock(block: Block)
  {
    && (forall j :: 0 <= j < |block| && (block[j].kind == Gate || block[j].kind == Measure) ==>
          |block[j].results| == |block[j].operands|)
    && (forall j :: 0 <= j < |block| && block[j].kind == NullWire ==>
          |block[j].operands| == 0 && |block[j].results| == 1)
    && (forall i, a, j, b ::
          0 <= i < |block| && 0 <= j < |block| && 0 <= a < |block[i].results| && 0 <= b < |block[j].results| && (i != j || a != b) ==>
            block[i].results[a] != block[j].results[b])
  }

  /** The positions of the null-wire ops before position j, in order: the
      sources. */
  function NullWires(block: Block, j: nat): (s: seq<nat>)
    requires j <= |block|
    ensures forall k :: 0 <= k < |s| ==> s[k] < j && block[s[k]].kind == NullWire
    ensures forall a, b :: 0 <= a < b < |s| ==> s[a] < s[b]
    decreases j
  {
    if j == 0 then []
    else NullWires(block, j - 1) + (if block[j - 1].kind == NullWire then [j - 1] else [])
  }

  /** Every null wire before j is a source. */
  lemma {:induction false} NullWiresComplete(block: Block, j: nat, i: nat)
    requires i < j <= |block| && block[i].kind == NullWire
    ensures i in NullWires(block, j)
    decreases j
  {
    if i < j - 1 {
      NullWiresComplete(block, j - 1, i);
    }
  }

  /** The scan's state: the sources so far and the wire-to-virtual-qubit
      table. */
  datatype Scanned = Scanned(sources: seq<nat>, wireMap: map<Wire, nat>)

  /** A wire bound: every wire of the block is below it, so wires from it on
      are fresh. */
  function FreshWire(block: Block): (w: Wire)
    ensures forall j, k :: 0 <= j < |block| && 0 <= k < |block[j].results| ==> block[j].results[k] < w
    ensures forall j, k :: 0 <= j < |block| && 0 <= k < |block[j].operands| ==> block[j].operands[k] < w
    decreases |block|
  {
    if |block| == 0 then 0
    else
      var init := block[..|block| - 1];
      var last := block[|block| - 1];
      var w := Max(FreshWire(init), Max(MaxOf(last.results), MaxOf(last.operands)) + 1);
      assert forall j :: 0 <= j < |init| ==> block[j] == init[j];
      w
  }

  function Max(a: nat, b: nat): (m: nat)
    ensures a <= m && b <= m && (m == a || m == b)
  {
    if a < b then b else a
  }

  function MaxOf(ws: seq<Wire>): (m: nat)
    ensures forall k :: 0 <= k < |ws| ==> ws[k] <= m
    decreases |ws|
  {
    if |ws| == 0 then 0 else Max(ws[0], MaxOf(ws[1..]))
  }

  /** What the scan keeps up to position j: the sources are the null wires
      so far; each source's wire maps to its number; every operand of a
      supported op so far is tracked; the table only names virtual qubits
      of sources and only holds wires of the block. */
  predicate ScanInv(block: Block, j: nat, st: Scanned)
    requires j <= |block| && WellFormedBlock(block)
  {
    && st.sources == NullWires(block, j)
    && (forall w :: w in st.wireMap ==> st.wireMap[w] < |st.sources| && w < FreshWire(block))
    && (forall i, k :: 0 <= i < j && 0 <= k < |block[i].operands| && Supported(block[i]) ==>
          block[i].operands[k] in st.wireMap)
    && (forall k :: 0 <= k < |st.sources| ==>
          block[st.sources[k]].results[0] in st.wireMap && st.wireMap[block[st.sources[k]].results[0]] == k)
  }

  predicate Tracked(ws: seq<Wire>, m: map<Wire, nat>)
  {
    forall k :: 0 <= k < |ws| ==> ws[k] in m
  }

  /** `wireToVirtualQ.insert({newWire, wireToVirtualQ[wire]})` for each
      operand/result pair in turn: an existing entry is never overwritten. */
  function Thread(m: map<Wire, nat>, ws: seq<Wire>, rs: seq<Wire>): (m': map<Wire, nat>)
    requires |ws| == |rs| && Tracked(ws, m)
    ensures forall w :: w in m ==> w in m' && m'[w] == m[w]
    ensures forall w :: w in m' ==> w in m || w in rs
    ensures forall w :: w in m' ==> m'[w] in m.Values
    ensures Tracked(rs, m')
    decreases |ws|
  {
    if |ws| == 0 then m
    else
      var m1 := if rs[0] in m then m else m[rs[0] := m[ws[0]]];
      assert forall w :: w in m1 ==> m1[w] in m.Values;
      assert Tracked(ws[1..], m1) by {
        forall k | 0 <= k < |ws[1..]| ensures ws[1..][k] in m1 {
          assert ws[1..][k] == ws[k + 1];
        }
      }
      var m' := Thread(m1, ws[1..], rs[1..]);
      assert forall k :: 1 <= k < |rs| ==> rs[k] == rs[1..][k - 1];
      m'
  }

  /** An op the scan refuses for a reason of its own: an unnamed measurement,
      a supported op not in value form, or a gate on more than two wires. */
  predicate Rejected(block: Block, i: nat)
    requires i < |block|
  {
    var op := block[i];
    || (op.kind == Measure && !op.named)
    || (Supported(op) && op.kind != NullWire && !op.valueForm)
    || (op.kind == Gate && |op.operands| > 2)
  }

  /** The op an op-level diagnostic is about. */
  function DiagOp(d: Diagnostic): nat
  {
    match d
    case UnnamedMeasurement(j) => j
    case NotValueSemantics(j) => j
    case TooManyQubitOperands(j) => j
    case UntrackedWire(j) => j
    case _ => 0
  }

  /** The scan reports an op-level diagnostic only for an op that has the
      fault it names. */
  predicate Reports(block: Block, d: Diagnostic)
  {
    match d
    case UnnamedMeasurement(j) => j < |block| && block[j].kind == Measure && !block[j].named
    case NotValueSemantics(j) => j < |block| && Supported(block[j]) && block[j].kind != NullWire && !block[j].valueForm
    case TooManyQubitOperands(j) => j < |block| && block[j].kind == Gate && |block[j].operands| > 2
    case UntrackedWire(j) => j < |block| && Supported(block[j]) && block[j].kind != NullWire && !Rejected(block, j)
    case _ => false
  }

  /** One op of the scan. A measurement must be named; a null wire becomes
      the next source and its wire the next virtual qubit; an unsupported op
      is skipped; a supported op must be in value form; a sink defines no
      wire; any other op may use at most two wires unless it is a
      measurement, and its result wires take the virtual qubits of its
      operand wires. An operand wire without a virtual qubit is reported
      (the source would read a default-constructed one). */
  function ScanOp(block: Block, j: nat, st: Scanned): (r: Result<Scanned, Diagnostic>)
    requires j < |block| && WellFormedBlock(block) && ScanInv(block, j, st)
    ensures r.Ok? <==> !Rejected(block, j) && (Supported(block[j]) && block[j].kind != NullWire ==> Tracked(block[j].operands, st.wireMap))
    ensures r.Ok? ==> ScanInv(block, j + 1, r.value)
    ensures r.Err? ==> DiagOp(r.error) == j && Reports(block, r.error)
  {
    var op := block[j];
    if op.kind == Measure && !op.named then Err(UnnamedMeasurement(j))
    else if op.kind == NullWire then
      var st' := Scanned(st.sources + [j], st.wireMap[op.results[0] := |st.sources|]);
      ScanNullWire(block, j, st);
      Ok(st')
    else if !Supported(op) then
      assert ScanInv(block, j + 1, st);
      Ok(st)
    else if !op.valueForm then Err(NotValueSemantics(j))
    else if op.kind != Sink && op.kind != Measure && |op.operands| > 2 then Err(TooManyQubitOperands(j))
    else if !Tracked(op.operands, st.wireMap) then Err(UntrackedWire(j))
    else if op.kind == Sink then
      assert ScanInv(block, j + 1, st);
      Ok(st)
    else
      var st' := st.(wireMap := Thread(st.wireMap, op.operands, op.results));
      ScanThread(block, j, st);
      Ok(st')
  }

  lemma ScanNullWire(block: Block, j: nat, st: Scanned)
    requires j < |block| && WellFormedBlock(block) && ScanInv(block, j, st) && block[j].kind == NullWire
    ensures ScanInv(block, j + 1, Scanned(st.sources + [j], st.wireMap[block[j].results[0] := |st.sources|]))
  {
    var w := block[j].results[0];
    forall k | 0 <= k < |st.sources|
      ensures block[st.sources[k]].results[0] != w
    {
      assert st.sources[k] < j;
    }
  }

  lemma ScanThread(block: Block, j: nat, st: Scanned)
    requires j < |block| && WellFormedBlock(block) && ScanInv(block, j, st)
    requires block[j].kind == Gate || block[j].kind == Measure
    requires Tracked(block[j].operands, st.wireMap)
    ensures ScanInv(block, j + 1, st.(wireMap := Thread(st.wireMap, block[j].operands, block[j].results)))
  {
    var m' := Thread(st.wireMap, block[j].operands, block[j].results);
    forall w | w in m' ensures m'[w] < |st.sources| && w < FreshWire(block) {
      assert m'[w] in st.wireMap.Values;
      if w !in st.wireMap {
        var k :| 0 <= k < |block[j].results| && block[j].results[k] == w;
      }
    }
  }

  /** The scan from position j on. It stops at the first op that draws an
      error; otherwise it has looked at every op. */
  function ScanFrom(block: Block, j: nat, st: Scanned): (r: Result<Scanned, Diagnostic>)
    requires j <= |block| && WellFormedBlock(block) && ScanInv(block, j, st)
    ensures r.Ok? ==> ScanInv(block, |block|, r.value) && forall i :: j <= i < |block| ==> !Rejected(block, i)
    ensures r.Err? ==> j <= DiagOp(r.error) < |block| && Reports(block, r.error)
    ensures r.Err? ==> forall i :: j <= i < DiagOp(r.error) ==> !Rejected(block, i)
    decreases |block| - j
  {
    if j == |block| then Ok(st)
    else
      match ScanOp(block, j, st)
      case Err(d) => Err(d)
      case Ok(st') => ScanFrom(block, j + 1, st')
  }

  /** The whole scan. When it succeeds, its sources are exactly the null
      wires of the block, each source's wire has the source's number as its
      virtual qubit, every operand of a supported op has a virtual qubit, and
      no op is refused; when it fails, the error names the first refused op
      (or an op with an untracked operand). */
  function Scan(block: Block): (r: Result<Scanned, Diagnostic>)
    requires WellFormedBlock(block)
    ensures r.Ok? ==> ScanInv(block, |block|, r.value) && forall i :: 0 <= i < |block| ==> !Rejected(block, i)
    ensures r.Err? ==> DiagOp(r.error) < |block| && Reports(block, r.error)
    ensures r.Err? ==> forall i :: 0 <= i < DiagOp(r.error) ==> !Rejected(block, i)
  {
    ScanFrom(block, 0, Scanned([], map[]))
  }

  /** A refused op makes the scan fail, at that op or before it. */
  lemma ScanRefuses(block: Block, i: nat)
    requires WellFormedBlock(block) && i < |block| && Rejected(block, i)
    ensures Scan(block).Err? && DiagOp(Scan(block).error) <= i
  {
  }

  //===--------------------------------------------------------------------===//
  // Device size and topology (Mapping.cpp:528-562)
  //===--------------------------------------------------------------------===//

  /** `deviceNumQubits`: d0·d1 for a grid, in 64-bit arithmetic, and d0 for
      every other name; 0 when no size was given. */
  function Capacity(name: string, d0: nat, d1: nat): (n: nat)
    ensures n < SizeModulus || (name != "grid" && n == d0)
    ensures name == "grid" ==> n == (d0 * d1) % SizeModulus
  {
    if name == "grid" then ToSize(d0 * d1) else d0
  }

  /** The integer square root. */
  function ISqrt(n: nat): (r: nat)
    ensures r * r <= n < (r + 1) * (r + 1)
    decreases n
  {
    if n == 0 then 0
    else
      var r := ISqrt(n - 1);
      if (r + 1) * (r + 1) <= n then
        assert n == (r + 1) * (r + 1);
        assert (r + 2) * (r + 2) == (r + 1) * (r + 1) + 2 * r + 3;
        r + 1
      else r
  }

  /** The dimensions the device is built with (Mapping.cpp:536-540): the
      given ones, or, with no size given, the number of sources (its floor
      square root for a grid) for both. */
  function DeviceDims(opt: DeviceOption, numSources: nat): (dims: (nat, nat))
    ensures Capacity(opt.name, opt.d0, opt.d1) != 0 ==> dims == (opt.d0, opt.d1)
    ensures Capacity(opt.name, opt.d0, opt.d1) == 0 ==>
              dims.0 == dims.1 && (opt.name == "grid" ==> dims.0 * dims.0 <= numSources < (dims.0 + 1) * (dims.0 + 1))
              && (opt.name != "grid" ==> dims.0 == numSources)
  {
    if Capacity(opt.name, opt.d0, opt.d1) != 0 then (opt.d0, opt.d1)
    else
      var d := if opt.name == "grid" then ISqrt(numSources) else numSources;
      (d, d)
  }

  /** The device family chosen by name. The constructors themselves are not
      part of this model: a device is built from a topology by a given
      function. */
  datatype Topology =
    | PathTopology(n: nat)
    | RingTopology(n: nat)
    | StarTopology(n: nat, center: nat)
    | GridTopology(width: nat, height: nat)
    | FileTopology(path: string)
    | NoTopology

  /** The names are compared exactly here (Mapping.cpp:545-556), unlike the
      case-insensitive test for "file" in the option parser. */
  function SelectTopology(name: string, d0: nat, d1: nat, filename: string): (t: Topology)
    ensures t.NoTopology? <==> name !in {"path", "ring", "star", "grid", "file"}
  {
    if name == "path" then PathTopology(d0)
    else if name == "ring" then RingTopology(d0)
    else if name == "star" then StarTopology(d0, d1)
    else if name == "grid" then GridTopology(d0, d1)
    else if name == "file" then FileTopology(filename)
    else NoTopology
  }

  /** `FILE(...)` passes the file branch of the parser but selects no
      device. */
  lemma UpperCaseFile(d0: nat, d1: nat, filename: string)
    ensures EqualsInsensitive("FILE", "file")
    ensures SelectTopology("FILE", d0, d1, filename) == NoTopology
  {
    assert "FILE" != "file" by {
      assert "FILE"[0] != "file"[0];
    }
  }

  /** Without a size, a grid for two program qubits is 1 by 1. */
  lemma GridOfTwo(opt: DeviceOption)
    requires opt.name == "grid" && Capacity(opt.name, opt.d0, opt.d1) == 0
    ensures DeviceDims(opt, 2) == (1, 1)
  {
  }

  //===--------------------------------------------------------------------===//
  // Ancillas, pruning and the reported placement (Mapping.cpp:575-620)
  //===--------------------------------------------------------------------===//

  /** The ancilla null wires: `count` of them, each defining a base wire. */
  function Ancillas(count: nat, base: Wire): (ops: seq<Op>)
    ensures |ops| == count
    ensures forall k :: 0 <= k < count ==> ops[k] == Op(NullWire, [], [base + k], false, true)
  {
    seq(count, k requires 0 <= k < count => Op(NullWire, [], [base + k], false, true))
  }

  /** The table entries of the ancillas: the k-th ancilla's wire is virtual
      qubit first + k. */
  function AncillaWires(count: nat, base: Wire, first: nat): (m: map<Wire, nat>)
    ensures forall w :: w in m <==> base <= w < base + count
    ensures forall w :: w in m ==> m[w] == first + (w - base)
    decreases count
  {
    if count == 0 then map[]
    else AncillaWires(count - 1, base, first)[base + count - 1 := first + count - 1]
  }

  /** Whether an event reads a wire. */
  predicate ReadsWire(e: Event, w: Wire)
  {
    match e
    case MappedOp(_, _, wires) => Some(w) in wires
    case InsertedSwap(_, _, inputs, _) => Some(w) in inputs
  }

  /** Whether a wire has a user in the routed block. */
  function WireUsed(log: seq<Event>, w: Wire): (used: bool)
    ensures used <==> exists k :: 0 <= k < |log| && ReadsWire(log[k], w)
    decreases |log|
  {
    if |log| == 0 then false
    else ReadsWire(log[|log| - 1], w) || WireUsed(log[..|log| - 1], w)
  }

  /** The pruning loop as written (Mapping.cpp:600-605), from index i down:
      its counter is `unsigned`, so with no program qubits the decrement
      after index 0 wraps around and the next read is past the end of the
      sources (None). Otherwise it gives how many sources are kept. */
  function PruneLoop(used: seq<bool>, numOrig: nat, i: nat): (r: Option<nat>)
    requires i < |used| < U32Modulus
    decreases i
  {
    if i < numOrig then Some(i + 1)
    else if used[i] then Some(i + 1)
    else if i == 0 then None
    else PruneLoop(used, numOrig, i - 1)
  }

  function PruneAsWritten(used: seq<bool>, numOrig: nat): (r: Option<nat>)
    requires 0 < |used| < U32Modulus
  {
    PruneLoop(used, numOrig, |used| - 1)
  }

  /** How many sources survive the pruning: trailing unused ancillas are
      removed, stopping at the first used one or at the program qubits. */
  function Prune(used: seq<bool>, numOrig: nat): (kept: nat)
    requires numOrig <= |used|
    ensures numOrig <= kept <= |used|
    ensures forall i :: kept <= i < |used| ==> !used[i]
    ensures kept == numOrig || used[kept - 1]
    decreases |used|
  {
    if |used| == numOrig || used[|used| - 1] then |used| else Prune(used[..|used| - 1], numOrig)
  }

  /** The three properties of `Prune` determine it. */
  lemma PruneUnique(used: seq<bool>, numOrig: nat, kept: nat)
    requires numOrig <= kept <= |used|
    requires forall i :: kept <= i < |used| ==> !used[i]
    requires kept == numOrig || used[kept - 1]
    ensures kept == Prune(used, numOrig)
  {
  }

  /** With at least one program qubit the loop as written prunes as
      intended. */
  lemma {:induction false} PruneLoopAgrees(used: seq<bool>, numOrig: nat, i: nat)
    requires 0 < numOrig <= |used| < U32Modulus && numOrig <= i + 1 <= |used|
    requires forall j :: i < j < |used| ==> !used[j]
    ensures PruneLoop(used, numOrig, i).Some?
    ensures PruneLoop(used, numOrig, i).value == Prune(used, numOrig)
    decreases i
  {
    if i < numOrig || used[i] {
      PruneUnique(used, numOrig, i + 1);
    } else {
      PruneLoopAgrees(used, numOrig, i - 1);
    }
  }

  lemma PruneAsWrittenAgrees(used: seq<bool>, numOrig: nat)
    requires 0 < numOrig <= |used| < U32Modulus
    ensures PruneAsWritten(used, numOrig) == Some(Prune(used, numOrig))
  {
    PruneLoopAgrees(used, numOrig, |used| - 1);
  }

  /** With no program qubit and an unused ancilla, the loop as written runs
      past index 0. */
  lemma PruneAsWrittenOverruns()
    ensures PruneAsWritten([false], 0).None?
    ensures Prune([false], 0) == 0
  {
  }

  /** `mapping_v2p`: the device qubit of each program qubit under the final
      placement. Distinct program qubits sit on distinct device qubits. */
  function MappingV2p(pl: Placement, numOrig: nat): (v2p: seq<nat>)
    requires IsBijection(pl) && numOrig <= Size(pl)
    ensures |v2p| == numOrig
    ensures forall v :: 0 <= v < numOrig ==> v2p[v] < Size(pl) && pl.virtOf[v2p[v]] == v
    ensures forall v, w :: 0 <= v < w < numOrig ==> v2p[v] != v2p[w]
  {
    var v2p := seq(numOrig, v requires 0 <= v < numOrig => pl.phyOf[v]);
    forall v, w | 0 <= v < w < numOrig ensures v2p[v] != v2p[w] {
      PlacementInjective(pl, v, w);
    }
    v2p
  }

  /** Without swaps every program qubit stays on the device qubit of the
      same number. */
  lemma V2pWithoutSwaps(c: Context, numOrig: nat)
    requires ValidContext(c) && numOrig <= NumQubits(c.device)
    ensures SwapsOk(c, [])
    ensures var v2p := MappingV2p(ReplaySwaps(c, IdentityPlacement(NumQubits(c.device)), []), numOrig);
      forall v :: 0 <= v < numOrig ==> v2p[v] == v
  {
  }

  /** The block after the ancillas are added: `count` null wires appended,
      their wires numbered from the block's fresh-wire bound and their
      virtual qubits numbered on from the program's. */
  function Padded(block: Block, st: Scanned, device: Device): (c: Context)
    requires |st.sources| <= NumQubits(device)
  {
    var count := NumQubits(device) - |st.sources|;
    Context(block + Ancillas(count, FreshWire(block)),
            st.wireMap + AncillaWires(count, FreshWire(block), |st.sources|),
            device)
  }

  /** The sources after the ancillas are added. */
  function PaddedSources(block: Block, st: Scanned, device: Device): (sources: seq<nat>)
    requires |st.sources| <= NumQubits(device)
    ensures |sources| == NumQubits(device)
  {
    st.sources + seq(NumQubits(device) - |st.sources|, k => |block| + k)
  }

  /** Adding the ancillas gives the router a coherent block: source k holds
      virtual qubit k, so every device qubit has exactly one source. */
  lemma PaddedOk(block: Block, st: Scanned, device: Device)
    requires WellFormedBlock(block) && ScanInv(block, |block|, st)
    requires ValidDevice(device) && |st.sources| <= NumQubits(device)
    ensures ValidContext(Padded(block, st, device))
    ensures SourcesOk(Padded(block, st, device), PaddedSources(block, st, device))
    ensures forall k :: 0 <= k < NumQubits(device) ==>
              SourceQubit(Padded(block, st, device), PaddedSources(block, st, device)[k]) == k
  {
    PaddedValid(block, st, device);
    forall k | 0 <= k < NumQubits(device)
      ensures IsSource(Padded(block, st, device), PaddedSources(block, st, device)[k])
      ensures SourceQubit(Padded(block, st, device), PaddedSources(block, st, device)[k]) == k
    {
      PaddedSource(block, st, device, k);
    }
  }

  lemma PaddedValid(block: Block, st: Scanned, device: Device)
    requires WellFormedBlock(block) && ScanInv(block, |block|, st)
    requires ValidDevice(device) && |st.sources| <= NumQubits(device)
    ensures ValidContext(Padded(block, st, device))
  {
    var c := Padded(block, st, device);
    var extra := AncillaWires(NumQubits(device) - |st.sources|, FreshWire(block), |st.sources|);
    assert forall j :: 0 <= j < |block| ==> c.block[j] == block[j];
    assert forall w :: w in st.wireMap ==> w !in extra;
  }

  /** Source k of the padded block holds virtual qubit k. */
  lemma PaddedSource(block: Block, st: Scanned, device: Device, k: nat)
    requires WellFormedBlock(block) && ScanInv(block, |block|, st)
    requires ValidDevice(device) && |st.sources| <= NumQubits(device)
    requires ValidContext(Padded(block, st, device)) && k < NumQubits(device)
    ensures IsSource(Padded(block, st, device), PaddedSources(block, st, device)[k])
    ensures SourceQubit(Padded(block, st, device), PaddedSources(block, st, device)[k]) == k
  {
    var c := Padded(block, st, device);
    var sources := PaddedSources(block, st, device);
    var numOrig, n, base := |st.sources|, NumQubits(device), FreshWire(block);
    var extra := AncillaWires(n - numOrig, base, numOrig);
    if k < numOrig {
      var w := block[st.sources[k]].results[0];
      assert c.block[sources[k]] == block[st.sources[k]];
      assert w in st.wireMap && w !in extra;
    } else {
      assert sources[k] == |block| + (k - numOrig);
      assert c.block[sources[k]].results[0] == base + (k - numOrig);
    }
  }

  /** `deviceNumQubits` is reported as too small for the program without a
      diagnostic (Mapping.cpp:531-534); the model names that failure
      `CapacityExceeded`. */
  function TargetDevice(opt: DeviceOption, numSources: nat, build: Topology -> Device): (d: Device)
    ensures SelectTopology(opt.name, DeviceDims(opt, numSources).0, DeviceDims(opt, numSources).1, opt.filename).NoTopology? ==>
              d == EmptyDevice
  {
    var (d0, d1) := DeviceDims(opt, numSources);
    var t := SelectTopology(opt.name, d0, d1, opt.filename);
    if t.NoTopology? then EmptyDevice else build(t)
  }

  /** The checks of the pass that end it at once (Mapping.cpp:468-573): the
      block scan, the device size, an empty device and a device smaller than
      the program. */
  function Preflight(block: Block, opt: DeviceOption, option: string, build: Topology -> Device): (r: Result<(Scanned, Device), Diagnostic>)
    requires WellFormedBlock(block)
    ensures Scan(block).Err? ==> r == Err(Scan(block).error)
    ensures r.Ok? ==>
              && Scan(block) == Ok(r.value.0)
              && r.value.1 == TargetDevice(opt, |r.value.0.sources|, build)
              && 0 < NumQubits(r.value.1)
              && |r.value.0.sources| <= NumQubits(r.value.1)
    ensures Scan(block).Ok? ==>
              var numOrig := |Scan(block).value.sources|;
              var cap := Capacity(opt.name, opt.d0, opt.d1);
              var n := NumQubits(TargetDevice(opt, numOrig, build));
              && (cap != 0 && numOrig > cap <==> r == Err(CapacityExceeded))
              && (!(cap != 0 && numOrig > cap) && n == 0 <==> r == Err(EmptyTarget))
              && (!(cap != 0 && numOrig > cap) && 0 < n < numOrig <==> r == Err(FewerQubits(option, n, numOrig)))
  {
    match Scan(block)
    case Err(d) => Err(d)
    case Ok(st) =>
      var numOrig := |st.sources|;
      var cap := Capacity(opt.name, opt.d0, opt.d1);
      if cap != 0 && numOrig > cap then Err(CapacityExceeded)
      else
        var device := TargetDevice(opt, numOrig, build);
        var n := NumQubits(device);
        if n == 0 then Err(EmptyTarget)
        else if numOrig > n then Err(FewerQubits(option, n, numOrig))
        else Ok((st, device))
  }

  /** What a successful run leaves: the padded block and its wire table on
      the device, the sources, how routing ended, the inserted swaps, the
      log of the rewritten block, the final placement, how many sources
      survive the pruning and the `mapping_v2p` attribute. */
  datatype Mapped = Mapped(
    context: Context,
    sources: seq<nat>,
    outcome: Outcome,
    swaps: seq<Swap>,
    log: seq<Event>,
    placement: Placement,
    kept: nat,
    v2p: seq<nat>)

  /** Which sources have a user after routing; only ancillas (from numOrig
      on) are ever asked. */
  function UsedSources(log: seq<Event>, base: Wire, numOrig: nat, n: nat): (used: seq<bool>)
    ensures |used| == n
    ensures forall i :: 0 <= i < n ==> (used[i] <==> numOrig <= i && WireUsed(log, base + (i - numOrig)))
  {
    seq(n, i requires 0 <= i < n => numOrig <= i && WireUsed(log, base + (i - numOrig)))
  }

  /** The facts a successful run establishes for a scanned block on a
      device: the padded block keeps the program as its prefix, the log
      respects the device, the final placement is the identity after the
      inserted swaps, `mapping_v2p` gives each program qubit's distinct
      final device qubit, and the pruning keeps every used ancilla and
      drops every trailing unused one. */
  predicate MappedOk(block: Block, st: Scanned, device: Device, m: Mapped)
  {
    && RoutedOk(block, st, device, m)
    && V2pOk(|st.sources|, NumQubits(device), m)
    && PrunedOk(UsedSources(m.log, FreshWire(block), |st.sources|, NumQubits(device)), |st.sources|, m.kept)
  }

  /** The padded block, the log, the swaps and the final placement. */
  predicate RoutedOk(block: Block, st: Scanned, device: Device, m: Mapped)
  {
    var numOrig, n := |st.sources|, NumQubits(device);
    && m.context.device == device
    && ValidContext(m.context) && LogOk(m.context, m.log)
    && numOrig <= n && |m.context.block| == |block| + (n - numOrig)
    && m.context.block[..|block|] == block
    && SwapsOk(m.context, m.swaps)
    && Placed(m.context, IdentityPlacement(n))
    && m.placement == ReplaySwaps(m.context, IdentityPlacement(n), m.swaps)
  }

  /** `mapping_v2p`: each program qubit's final device qubit, all distinct. */
  predicate V2pOk(numOrig: nat, n: nat, m: Mapped)
  {
    && |m.v2p| == numOrig && numOrig <= |m.placement.phyOf|
    && (forall v :: 0 <= v < numOrig ==> m.v2p[v] == m.placement.phyOf[v] && m.v2p[v] < n)
    && (forall v, w :: 0 <= v < w < numOrig ==> m.v2p[v] != m.v2p[w])
  }

  /** The pruning keeps every used ancilla and drops every trailing unused
      one. */
  predicate PrunedOk(used: seq<bool>, numOrig: nat, kept: nat)
  {
    && numOrig <= kept <= |used|
    && (forall k :: kept <= k < |used| ==> !used[k])
    && (kept == numOrig || used[kept - 1])
  }

  /** `mapping_v2p` reads the final placement's device qubit of each
      program qubit. */
  lemma MappingV2pOfPlacement(pl: Placement, numOrig: nat)
    requires IsBijection(pl) && numOrig <= Size(pl)
    ensures forall v :: 0 <= v < numOrig ==> MappingV2p(pl, numOrig)[v] == pl.phyOf[v]
  {
    var v2p := MappingV2p(pl, numOrig);
    forall v | 0 <= v < numOrig ensures v2p[v] == pl.phyOf[v] {
      assert pl.phyOf[pl.virtOf[v2p[v]]] == v2p[v];
    }
  }

  /** Ancillas, placement, routing, pruning and `mapping_v2p`
      (Mapping.cpp:575-620) for a block the checks let through. */
  method MapBlock(block: Block, st: Scanned, device: Device, fuel: nat) returns (m: Mapped)
    requires WellFormedBlock(block) && ScanInv(block, |block|, st)
    requires ValidDevice(device) && |st.sources| <= NumQubits(device)
    ensures MappedOk(block, st, device, m)
  {
    var numOrig, n := |st.sources|, NumQubits(device);
    PaddedOk(block, st, device);
    var c := Padded(block, st, device);
    var sources := PaddedSources(block, st, device);
    assert c.block[..|block|] == block;
    var pl := IdentityPlacement(n);
    var base := FreshWire(block);
    NewRouterOk(c, pl, base + (n - numOrig));
    var router := NewRouter(pl, n, base + (n - numOrig));
    var outcome, routed, swaps := Route(c, router, sources, fuel);
    var used := UsedSources(routed.log, base, numOrig, n);
    var kept := Prune(used, numOrig);
    var v2p := MappingV2p(routed.placement, numOrig);
    MappingV2pOfPlacement(routed.placement, numOrig);
    m := Mapped(c, sources, outcome, swaps, routed.log, routed.placement, kept, v2p);
    assert RoutedOk(block, st, device, m);
    assert V2pOk(numOrig, n, m);
    assert PrunedOk(used, numOrig, kept);
  }

  /** The diagnostics a run reports before the first check that ends it. */
  function EarlyErrors(blocks: seq<Block>, opt: DeviceOption): (errors: seq<Diagnostic>)
    ensures |blocks| > 1 ==> |errors| > 0 && errors[0] == MultipleBlocks
    ensures |blocks| <= 1 ==> errors == opt.errors
  {
    (if |blocks| > 1 then [MultipleBlocks] else []) + opt.errors
  }

  /** `Mapper::runOnOperation`. Errors before the block scan are collected
      and the pass goes on; a failed check from the scan on ends it. A run
      with no error pads the program with ancillas up to the device size,
      places virtual qubit i on device qubit i, routes, prunes the unused
      trailing ancillas and reports `mapping_v2p`. */
  method RunOnFunction(blocks: seq<Block>, option: string, fileExists: string -> bool,
                       build: Topology -> Device, fuel: nat)
    returns (res: Result<Mapped, seq<Diagnostic>>)
    requires |blocks| >= 1 && WellFormedBlock(blocks[0])
    requires forall t :: ValidDevice(build(t))
    ensures var opt := ParseOption(option, fileExists);
            var pre := Preflight(blocks[0], opt, option, build);
            && (res.Ok? <==> |blocks| == 1 && opt.errors == [] && pre.Ok?)
            && (res.Err? ==> res.error == EarlyErrors(blocks, opt) + (if pre.Err? then [pre.error] else []))
            && (res.Ok? ==> MappedOk(blocks[0], pre.value.0, pre.value.1, res.value))
  {
    var opt := ParseOption(option, fileExists);
    var errors := EarlyErrors(blocks, opt);
    var pre := Preflight(blocks[0], opt, option, build);
    if pre.Err? {
      return Err(errors + [pre.error]);
    }
    var m := MapBlock(blocks[0], pre.value.0, pre.value.1, fuel);
    if errors != [] {
      return Err(errors);
    }
    res := Ok(m);
  }

  /** The position the ancillas are inserted after, as written
      (Mapping.cpp:577-579): `sources[sources.size() - 1]`, an index
      computed in `size_t`, which is past the end when the program has no
      qubit. */
  function AnchorAsWritten(numSources: nat): (r: Option<nat>)
    ensures r.None? <==> numSources == 0
    ensures 0 < numSources < SizeModulus ==> r == Some(numSources - 1)
  {
    var i := ToSize(numSources - 1);
    if i < numSources then Some(i) else None
  }

  /** With no program qubit, the pruning loop as written walks down through
      unused ancillas past index 0. */
  lemma {:induction false} PruneLoopOverruns(used: seq<bool>, i: nat)
    requires i < |used| < U32Modulus
    requires forall j :: 0 <= j <= i ==> !used[j]
    ensures PruneLoop(used, 0, i).None?
    decreases i
  {
    if i > 0 {
      PruneLoopOverruns(used, i - 1);
    }
  }

  /** An empty kernel passes every check of the pass on a device of n
      qubits named with an explicit size n. */
  lemma EmptyKernelPasses(name: string, n: nat, option: string, build: Topology -> Device)
    requires name != "grid" && 0 < n
    requires NumQubits(TargetDevice(DeviceOption(name, n, 0, [], []), 0, build)) == n
    ensures Preflight([], DeviceOption(name, n, 0, [], []), option, build)
         == Ok((Scanned([], map[]), TargetDevice(DeviceOption(name, n, 0, [], []), 0, build)))
  {
    assert Scan([]) == Ok(Scanned([], map[]));
  }

  /** With no program qubit both reads as written are out of range, while
      the corrected pruning removes every unused ancilla. */
  lemma ZeroQubitReadsOverrun(n: nat)
    requires 0 < n < U32Modulus
    ensures AnchorAsWritten(0).None?
    ensures PruneAsWritten(seq(n, _ => false), 0).None?
    ensures Prune(seq(n, _ => false), 0) == 0
  {
    PruneLoopOverruns(seq(n, _ => false), n - 1);
  }

  /** A kernel with no qubit, mapped with an option such as `path(2)` onto
      a device of that many qubits, passes every check of the pass and then
      reaches both out-of-range reads; the model pads it with n ancillas and
      prunes them all. */
  lemma EmptyKernelOverruns(name: string, n: nat, build: Topology -> Device, fileExists: string -> bool)
    requires '(' !in name && !EqualsInsensitive(name, "file") && name != "grid"
    requires 0 < n < U32Modulus
    requires NumQubits(TargetDevice(DeviceOption(name, n, 0, [], []), 0, build)) == n
    ensures ParseOption(name + "(" + NatToString(n) + ")", fileExists) == DeviceOption(name, n, 0, [], [])
    ensures Preflight([], DeviceOption(name, n, 0, [], []), name + "(" + NatToString(n) + ")", build).Ok?
    ensures AnchorAsWritten(0).None? && PruneAsWritten(seq(n, _ => false), 0).None?
  {
    ParseOneDim(name, n, fileExists);
    EmptyKernelPasses(name, n, name + "(" + NatToString(n) + ")", build);
    ZeroQubitReadsOverrun(n);
  }

  /** `path` is such a name. */
  lemma PathIsSized(n: nat, build: Topology -> Device)
    ensures '(' !in "path" && !EqualsInsensitive("path", "file") && "path" != "grid"
    ensures TargetDevice(DeviceOption("path", n, 0, [], []), 0, build) == build(PathTopology(n))
  {
    assert ToLower("path"[0]) != ToLower("file"[0]);
    assert "path"[0] != "grid"[0];
  }
}
