/** File names of the storage: the decimal printer and scanner of Go's `fmt` and `strconv`
    as far as the storage uses them, and the printer/parser pair for file descriptors. */
module FileNames {
  import opened Basics

  // ---------------------------------------------------------------- decimal numerals

  predicate IsDigit(c: char) { '0' <= c <= '9' }

  predicate AllDigits(s: string) { forall i :: 0 <= i < |s| ==> IsDigit(s[i]) }

  function DigitChar(d: nat): (c: char)
    requires d < 10
    ensures IsDigit(c) && c as int - '0' as int == d
  {
    (48 + d) as char
  }

  /** The number a digit string denotes; leading zeros are allowed. */
  function Value(s: string): (r: nat)
    requires AllDigits(s)
  {
    if s == [] then 0
    else Value(s[..|s| - 1]) * 10 + (s[|s| - 1] as int - '0' as int)
  }

  /** Shortest decimal numeral of n. */
  function Digits(n: nat): (s: string)
    ensures |s| > 0 && AllDigits(s) && Value(s) == n
  {
    if n < 10 then
      var s := [DigitChar(n)];
      assert s[..|s| - 1] == [];
      s
    else
      var p := Digits(n / 10);
      var s := p + [DigitChar(n % 10)];
      assert s[..|s| - 1] == p;
      s
  }

  function Zeros(k: nat): (s: string)
    ensures |s| == k && AllDigits(s) && Value(s) == 0
  {
    if k == 0 then []
    else
      var s := Zeros(k - 1) + ['0'];
      assert s[..|s| - 1] == Zeros(k - 1);
      s
  }

  lemma {:induction false} ValueAfterZeros(k: nat, s: string)
    requires AllDigits(s)
    ensures AllDigits(Zeros(k) + s) && Value(Zeros(k) + s) == Value(s)
  {
    var t := Zeros(k) + s;
    if s == [] {
      assert t == Zeros(k);
    } else {
      assert t[..|t| - 1] == Zeros(k) + s[..|s| - 1];
      ValueAfterZeros(k, s[..|s| - 1]);
    }
  }

  function Pad(s: string, width: nat): (r: string) {
    if |s| < width then Zeros(width - |s|) + s else s
  }

  /** `%d` */
  function FormatInt(n: int): (r: string) {
    if n < 0 then "-" + Digits(-n) else Digits(n)
  }

  /** `%06d`: the sign counts towards the width. */
  function FormatInt6(n: int): (r: string) {
    if n < 0 then "-" + Pad(Digits(-n), 5) else Pad(Digits(n), 6)
  }

  /** `strconv.ParseInt(s, 10, 64)` */
  function ParseInt(s: string): (r: Option<int64>) {
    var signed := s != [] && (s[0] == '+' || s[0] == '-');
    var ds := if signed then s[1..] else s;
    if ds == [] || !AllDigits(ds) then None
    else
      var v: int := if signed && s[0] == '-' then 0 - Value(ds) else Value(ds);
      if -TWO_63 <= v < TWO_63 then Some(v) else None
  }

  lemma PaddedDigits(n: nat, width: nat)
    ensures AllDigits(Pad(Digits(n), width)) && Value(Pad(Digits(n), width)) == n && |Pad(Digits(n), width)| > 0
  {
    if |Digits(n)| < width {
      ValueAfterZeros(width - |Digits(n)|, Digits(n));
    }
  }

  lemma ParseFormatInt(n: int64)
    ensures ParseInt(FormatInt(n)) == Some(n)
  {
    var m: int := n;
    if m < 0 {
      assert FormatInt(m)[1..] == Digits(-m);
    }
  }

  // ---------------------------------------------------------------- what is printed

  function Pow10(k: nat): (r: nat)
    ensures r > 0
  {
    if k == 0 then 1 else 10 * Pow10(k - 1)
  }

  lemma {:induction false} Pow10Grows(j: nat, k: nat)
    requires j <= k
    ensures Pow10(j) <= Pow10(k)
    decreases k
  {
    if j < k { Pow10Grows(j, k - 1); }
  }

  lemma {:induction false} ValueBounds(s: string)
    requires AllDigits(s)
    ensures Value(s) < Pow10(|s|)
    ensures s != [] && s[0] != '0' ==> Value(s) >= Pow10(|s| - 1)
  {
    if s != [] {
      ValueBounds(s[..|s| - 1]);
      if |s| == 1 { assert s[..0] == []; }
    }
  }

  /** x is the decimal numeral of n, zeros in front filling it up to the width and no further. */
  predicate Numeral(x: string, n: nat, width: nat) {
    && AllDigits(x) && Value(x) == n && |x| >= 1 && |x| >= width
    && (|x| > 1 && |x| > width ==> x[0] != '0')
  }

  /** The same for an int: a minus sign counts towards the width. */
  predicate Printed(x: string, n: int, width: nat)
    requires width > 0
  {
    if n < 0 then x != [] && x[0] == '-' && Numeral(x[1..], -n, width - 1) else Numeral(x, n, width)
  }

  lemma {:induction false} SameLengthNumerals(x: string, y: string)
    requires AllDigits(x) && AllDigits(y) && |x| == |y| && Value(x) == Value(y)
    ensures x == y
  {
    if x != [] {
      var k := |x| - 1;
      SameLengthNumerals(x[..k], y[..k]);
      assert x == x[..k] + [x[k]] && y == y[..k] + [y[k]];
    }
  }

  lemma NotLonger(x: string, y: string, n: nat, width: nat)
    requires Numeral(x, n, width) && Numeral(y, n, width)
    ensures |y| <= |x|
  {
    if |y| > |x| {
      ValueBounds(x);
      ValueBounds(y);
      Pow10Grows(|x|, |y| - 1);
    }
  }

  /** So there is one numeral of each number and width. */
  lemma NumeralUnique(x: string, y: string, n: nat, width: nat)
    requires Numeral(x, n, width) && Numeral(y, n, width)
    ensures x == y
  {
    NotLonger(x, y, n, width);
    NotLonger(y, x, n, width);
    SameLengthNumerals(x, y);
  }

  lemma {:induction false} DigitsNumeral(n: nat)
    ensures Numeral(Digits(n), n, 0)
  {
    if n >= 10 {
      DigitsNumeral(n / 10);
      if |Digits(n / 10)| == 1 { assert Digits(n / 10)[..0] == []; }
    }
  }

  lemma PadNumeral(n: nat, width: nat)
    ensures Numeral(Pad(Digits(n), width), n, width)
  {
    hide Value, Digits;
    DigitsNumeral(n);
    PaddedDigits(n, width);
  }

  /** What `%d` prints. */
  lemma FormatIntExact(n: int, x: string)
    ensures x == FormatInt(n) <==> Printed(x, n, 1)
  {
    hide Digits, Value, Numeral;
    var m := if n < 0 then -n else n;
    var y := if n < 0 && x != [] then x[1..] else x;
    DigitsWidths(m);
    if n < 0 {
      assert ("-" + Digits(m))[1..] == Digits(m);
      if Printed(x, n, 1) {
        NumeralUnique(x[1..], Digits(m), m, 0);
        assert x == "-" + x[1..];
      }
    } else if Printed(x, n, 1) {
      NumeralUnique(x, Digits(m), m, 1);
    }
  }

  lemma DigitsWidths(n: nat)
    ensures Numeral(Digits(n), n, 0) && Numeral(Digits(n), n, 1)
  {
    DigitsNumeral(n);
  }

  /** What `%06d` prints. */
  lemma FormatInt6Exact(n: int, x: string)
    ensures x == FormatInt6(n) <==> Printed(x, n, 6)
  {
    hide Digits, Value, Numeral, Pad;
    var m := if n < 0 then -n else n;
    PadNumeral(m, 5);
    PadNumeral(m, 6);
    if n < 0 {
      assert ("-" + Pad(Digits(m), 5))[1..] == Pad(Digits(m), 5);
      if Printed(x, n, 6) {
        NumeralUnique(x[1..], Pad(Digits(m), 5), m, 5);
        assert x == "-" + x[1..];
      }
    } else if Printed(x, n, 6) {
      NumeralUnique(x, Pad(Digits(m), 6), m, 6);
    }
  }

  /** Exactly which texts `strconv.ParseInt` takes for v. */
  lemma ParseIntExact(s: string, v: int64)
    ensures ParseInt(s) == Some(v) <==>
      exists ds: string :: ds != [] && AllDigits(ds) &&
        ((v >= 0 && Value(ds) == v && (s == ds || s == "+" + ds)) || (v <= 0 && Value(ds) == -(v as int) && s == "-" + ds))
  {
    if ParseInt(s) == Some(v) {
      var signed := s[0] == '+' || s[0] == '-';
      var ds := if signed then s[1..] else s;
      assert signed ==> s == [s[0]] + ds;
      assert s == ds || s == "+" + ds || s == "-" + ds;
    }
    forall ds: string | ds != [] && AllDigits(ds) &&
        ((v >= 0 && Value(ds) == v && (s == ds || s == "+" + ds)) || (v <= 0 && Value(ds) == -(v as int) && s == "-" + ds))
      ensures ParseInt(s) == Some(v)
    {
      if s != ds { assert s[1..] == ds; }
    }
  }

  // ---------------------------------------------------------------- the scanner

  /** `isSpace` of Go's fmt package. */
  predicate IsSpace(c: char) {
    var x := c as int;
    || 0x09 <= x <= 0x0d || x == 0x20 || x == 0x85 || x == 0xa0 || x == 0x1680
    || 0x2000 <= x <= 0x200a || x == 0x2028 || x == 0x2029 || x == 0x202f || x == 0x205f || x == 0x3000
  }

  /** The blanks, one by one. */
  lemma SpacesInFull(c: char)
    ensures IsSpace(c) <==> c as int in [
      0x09, 0x0a, 0x0b, 0x0c, 0x0d, 0x20, 0x85, 0xa0, 0x1680, 0x2000, 0x2001, 0x2002, 0x2003, 0x2004, 0x2005, 0x2006,
      0x2007, 0x2008, 0x2009, 0x200a, 0x2028, 0x2029, 0x202f, 0x205f, 0x3000]
  {
  }

  /** Skips blanks; None is the scanner's "unexpected newline" error. */
  function SkipSpace(s: string): (r: Option<string>)
    ensures r.Some? && r.value != [] ==> !IsSpace(r.value[0])
  {
    if s == [] then Some([])
    else if s[0] == '\n' then None
    else if IsSpace(s[0]) then SkipSpace(s[1..])
    else Some(s)
  }

  function DigitRun(s: string): (k: nat)
    ensures k <= |s| && AllDigits(s[..k])
    ensures k < |s| ==> !IsDigit(s[k])
  {
    if s != [] && IsDigit(s[0]) then
      assert s[..1 + DigitRun(s[1..])] == [s[0]] + s[1..][..DigitRun(s[1..])];
      1 + DigitRun(s[1..])
    else 0
  }

  /** The number at the start of t and what follows it. */
  function ScanNumber(t: string): (r: Option<(int64, string)>) {
    var sign := if t != [] && (t[0] == '+' || t[0] == '-') then 1 else 0;
    var end := sign + DigitRun(t[sign..]);
    match ParseInt(t[..end])
    case None => None
    case Some(v) => Some((v, t[end..]))
  }

  /** `%d` in Sscanf: the number and the unread input. */
  function ScanInt(s: string): (r: Option<(int64, string)>) {
    match SkipSpace(s)
    case None => None
    case Some(t) => ScanNumber(t)
  }

  predicate NoSpace(w: string) { forall i :: 0 <= i < |w| ==> !IsSpace(w[i]) }

  predicate Blanks(b: string) { forall i :: 0 <= i < |b| ==> IsSpace(b[i]) && b[i] != '\n' }

  function WordLength(s: string): (k: nat)
    ensures k <= |s| && NoSpace(s[..k])
    ensures k < |s| ==> IsSpace(s[k])
  {
    if s == [] || IsSpace(s[0]) then 0
    else
      assert s[..1 + WordLength(s[1..])] == [s[0]] + s[1..][..WordLength(s[1..])];
      1 + WordLength(s[1..])
  }

  /** `%s` in Sscanf: None when the input is exhausted or a newline comes first. */
  function ScanWord(s: string): (r: Option<string>) {
    match SkipSpace(s)
    case None => None
    case Some(t) => if t == [] then None else Some(t[..WordLength(t)])
  }

  // ---------------------------------------------------------------- descriptors

  datatype FileType = Manifest | Journal | Table | Temp | Unknown(code: int)

  datatype FileDesc = FileDesc(ftype: FileType, num: int64)

  predicate FileDescOk(fd: FileDesc) { !fd.ftype.Unknown? && fd.num >= 0 }

  /** `fsGenName`; the source panics on an unknown type. */
  function GenName(fd: FileDesc): (r: string)
    requires !fd.ftype.Unknown?
  {
    match fd.ftype
    case Manifest => "MANIFEST-" + FormatInt6(fd.num)
    case Journal => FormatInt6(fd.num) + ".log"
    case Table => FormatInt6(fd.num) + ".ldb"
    case Temp => FormatInt6(fd.num) + ".tmp"
  }

  /** `fsGenOldName` */
  function GenOldName(fd: FileDesc): (r: string)
    requires !fd.ftype.Unknown?
  {
    if fd.ftype == Table then FormatInt6(fd.num) + ".sst" else GenName(fd)
  }

  /** `Sscanf(name, "%d.%s", …)`: the number and the word after the dot. */
  function ScanNumbered(name: string): (r: Option<(int64, string)>) {
    match ScanInt(name)
    case None => None
    case Some((v, rest)) =>
      if rest == [] || rest[0] != '.' then None
      else match ScanWord(rest[1..])
        case None => None
        case Some(w) => Some((v, w))
  }

  function ExtType(ext: string): (r: Option<FileType>)
    ensures r.Some? ==> !r.value.Unknown?
  {
    if ext == "log" then Some(Journal)
    else if ext == "ldb" || ext == "sst" then Some(Table)
    else if ext == "tmp" then Some(Temp)
    else None
  }

  /** `fsParseName`. A manifest name is accepted when `%s` fails after the number, so trailing
      blanks and anything after a newline are ignored. */
  function ParseName(name: string): (r: Option<FileDesc>)
    ensures r.Some? ==> !r.value.ftype.Unknown?
  {
    match ScanNumbered(name)
    case Some((v, tail)) => (match ExtType(tail) case None => None case Some(ft) => Some(FileDesc(ft, v)))
    case None =>
      if "MANIFEST-" <= name then
        match ScanInt(name[9..])
        case Some((v, rest)) => if ScanWord(rest).None? then Some(FileDesc(Manifest, v)) else None
        case None => None
      else None
  }

  // ---------------------------------------------------------------- what is accepted

  lemma {:induction false} DigitRunAll(ds: string, rest: string)
    requires AllDigits(ds) && (rest == [] || !IsDigit(rest[0]))
    ensures DigitRun(ds + rest) == |ds|
  {
    if ds == [] {
      assert ds + rest == rest;
    } else {
      assert (ds + rest)[1..] == ds[1..] + rest;
      DigitRunAll(ds[1..], rest);
    }
  }

  lemma {:induction false} SkipForward(b: string, t: string)
    requires Blanks(b) && (t == [] || t[0] == '\n' || !IsSpace(t[0]))
    ensures SkipSpace(b + t) == if t != [] && t[0] == '\n' then None else Some(t)
  {
    if b == [] {
      assert b + t == t;
    } else {
      assert (b + t)[1..] == b[1..] + t;
      SkipForward(b[1..], t);
    }
  }

  lemma {:induction false} SkipBack(s: string) returns (b: string, t: string)
    ensures s == b + t && Blanks(b) && (t == [] || t[0] == '\n' || !IsSpace(t[0]))
  {
    b, t := [], s;
    if s != [] && s[0] != '\n' && IsSpace(s[0]) {
      b, t := SkipBack(s[1..]);
      b := [s[0]] + b;
    }
  }

  lemma {:induction false} WordForward(w: string, t: string)
    requires NoSpace(w) && (t == [] || IsSpace(t[0]))
    ensures WordLength(w + t) == |w|
  {
    if w == [] {
      assert w + t == t;
    } else {
      assert (w + t)[1..] == w[1..] + t;
      WordForward(w[1..], t);
    }
  }

  /** `%s` reads the word w. */
  predicate WordParts(s: string, b: string, w: string, t: string) {
    s == b + w + t && Blanks(b) && w != [] && NoSpace(w) && (t == [] || IsSpace(t[0]))
  }

  /** `%s` reads nothing. */
  predicate NoWordParts(s: string, b: string, t: string) { s == b + t && Blanks(b) && (t == [] || t[0] == '\n') }

  lemma ScanWordForward(s: string, b: string, w: string, t: string)
    requires WordParts(s, b, w, t)
    ensures ScanWord(s) == Some(w)
  {
    assert s == b + (w + t) && (w + t)[0] == w[0] && !IsSpace(w[0]) && IsSpace('\n');
    SkipForward(b, w + t);
    WordForward(w, t);
    assert (w + t)[..|w|] == w;
  }

  lemma ScanWordExact(s: string)
    ensures forall w :: ScanWord(s) == Some(w) <==> exists b, t :: WordParts(s, b, w, t)
    ensures ScanWord(s).None? <==> exists b, t :: NoWordParts(s, b, t)
  {
    var b0, t0 := SkipBack(s);
    SkipForward(b0, t0);
    if t0 == [] || t0[0] == '\n' {
      assert NoWordParts(s, b0, t0);
    } else {
      var k := WordLength(t0);
      assert t0 == t0[..k] + t0[k..];
      assert WordParts(s, b0, t0[..k], t0[k..]);
    }
    forall w, b, t | WordParts(s, b, w, t) ensures ScanWord(s) == Some(w) { ScanWordForward(s, b, w, t); }
    forall b, t | NoWordParts(s, b, t) ensures ScanWord(s).None? { SkipForward(b, t); }
  }

  /** `%d` reads the numeral x and leaves rest. */
  predicate IntParts(s: string, b: string, x: string, rest: string) {
    s == b + x + rest && Blanks(b) && ParseInt(x).Some? && (rest == [] || !IsDigit(rest[0]))
  }

  lemma NumeralStart(x: string)
    requires ParseInt(x).Some?
    ensures x != [] && (x[0] == '+' || x[0] == '-' || IsDigit(x[0])) && !IsSpace(x[0]) && x[0] != '\n'
  {
  }

  lemma ScanNumberForward(x: string, rest: string)
    requires ParseInt(x).Some? && (rest == [] || !IsDigit(rest[0]))
    ensures ScanNumber(x + rest) == Some((ParseInt(x).value, rest))
  {
    hide DigitRun, Value;
    NumeralStart(x);
    var t := x + rest;
    var sign := if x[0] == '+' || x[0] == '-' then 1 else 0;
    assert t[0] == x[0] && t[sign..] == x[sign..] + rest;
    DigitRunAll(x[sign..], rest);
    assert t[..|x|] == x && t[|x|..] == rest;
  }

  lemma ScanIntForward(s: string, b: string, x: string, rest: string)
    requires IntParts(s, b, x, rest)
    ensures ScanInt(s) == Some((ParseInt(x).value, rest))
  {
    hide ParseInt, ScanNumber, IsSpace;
    NumeralStart(x);
    assert s == b + (x + rest) && (x + rest)[0] == x[0];
    SkipForward(b, x + rest);
    ScanNumberForward(x, rest);
  }

  lemma ScanIntBack(s: string) returns (b: string, x: string)
    requires ScanInt(s).Some?
    ensures IntParts(s, b, x, ScanInt(s).value.1) && ParseInt(x) == Some(ScanInt(s).value.0)
  {
    hide ParseInt, IsSpace, DigitRun, IsDigit;
    var t;
    b, t := SkipBack(s);
    SkipForward(b, t);
    var sign := if t != [] && (t[0] == '+' || t[0] == '-') then 1 else 0;
    var end := sign + DigitRun(t[sign..]);
    x := t[..end];
    assert t == x + t[end..];
  }

  /** The texts `Sscanf(name, "%d.%s", ...)` takes apart: a numeral x, a dot and the word w, with
      blanks b and c before them and t, at once or after a blank, behind them. */
  predicate NumberedParts(name: string, b: string, x: string, c: string, w: string, t: string) {
    IntParts(name, b, x, ['.'] + (c + w + t)) && WordParts(c + w + t, c, w, t)
  }

  /** The texts from which `Sscanf(name, "MANIFEST-%d%s", ...)` reads the numeral x and nothing more. */
  predicate ManifestParts(name: string, b: string, x: string, c: string, t: string) {
    "MANIFEST-" <= name && IntParts(name[9..], b, x, c + t) && NoWordParts(c + t, c, t)
  }

  ghost predicate NumberedName(name: string, v: int64, w: string) {
    exists b, x, c, t :: NumberedParts(name, b, x, c, w, t) && ParseInt(x) == Some(v)
  }

  ghost predicate ManifestName(name: string, v: int64) {
    exists b, x, c, t :: ManifestParts(name, b, x, c, t) && ParseInt(x) == Some(v)
  }

  lemma ScanNumberedForward(name: string, b: string, x: string, c: string, w: string, t: string)
    requires NumberedParts(name, b, x, c, w, t)
    ensures ScanNumbered(name) == Some((ParseInt(x).value, w))
  {
    hide ParseInt, ScanInt, ScanWord;
    ScanIntForward(name, b, x, ['.'] + (c + w + t));
    ScanWordForward(c + w + t, c, w, t);
    assert (['.'] + (c + w + t))[1..] == c + w + t;
  }

  lemma ScanNumberedExact(name: string)
    ensures forall v: int64, w: string :: ScanNumbered(name) == Some((v, w)) <==> NumberedName(name, v, w)
  {
    hide IntParts, WordParts, ScanInt, ScanWord, ParseInt;
    if ScanNumbered(name).Some? {
      var (v, w) := ScanNumbered(name).value;
      var rest := ScanInt(name).value.1;
      var b, x := ScanIntBack(name);
      ScanWordExact(rest[1..]);
      var c, t :| WordParts(rest[1..], c, w, t);
      WordText(rest[1..], c, w, t);
      assert rest == ['.'] + (c + w + t);
      assert NumberedParts(name, b, x, c, w, t);
    }
    forall v: int64, w: string | NumberedName(name, v, w) ensures ScanNumbered(name) == Some((v, w)) {
      var b, x, c, t :| NumberedParts(name, b, x, c, w, t) && ParseInt(x) == Some(v);
      ScanNumberedForward(name, b, x, c, w, t);
    }
  }

  lemma WordText(s: string, b: string, w: string, t: string)
    requires WordParts(s, b, w, t)
    ensures s == b + w + t
  {
  }

  lemma NoNumberInManifest(name: string)
    requires "MANIFEST-" <= name
    ensures ScanNumbered(name).None?
  {
    assert name[0] == 'M' && !IsSpace('M');
    assert name[0..] == name && DigitRun(name) == 0 && name[..0] == [];
  }

  lemma ScanManifestExact(name: string)
    requires "MANIFEST-" <= name
    ensures forall v: int64 :: ManifestName(name, v) <==>
      ScanInt(name[9..]).Some? && ScanInt(name[9..]).value.0 == v && ScanWord(ScanInt(name[9..]).value.1).None?
  {
    hide IntParts, ScanInt, ScanWord, ParseInt;
    var s := name[9..];
    if ScanInt(s).Some? && ScanWord(ScanInt(s).value.1).None? {
      var rest := ScanInt(s).value.1;
      var b, x := ScanIntBack(s);
      ScanWordExact(rest);
      var c, t :| NoWordParts(rest, c, t);
      assert ManifestParts(name, b, x, c, t);
    }
    forall v: int64 | ManifestName(name, v)
      ensures ScanInt(s).Some? && ScanInt(s).value.0 == v && ScanWord(ScanInt(s).value.1).None?
    {
      var b, x, c, t :| ManifestParts(name, b, x, c, t) && ParseInt(x) == Some(v);
      ScanIntForward(s, b, x, c + t);
      ScanWordExact(c + t);
    }
  }

  /** Exactly which names `fsParseName` accepts, and as what. */
  lemma NameExact(name: string, fd: FileDesc)
    ensures ParseName(name) == Some(fd) <==>
      || (exists w :: NumberedName(name, fd.num, w) && ExtType(w) == Some(fd.ftype))
      || (fd.ftype == Manifest && ManifestName(name, fd.num))
  {
    hide ScanInt, ScanWord, ScanNumbered, NumberedName, ManifestName;
    ScanNumberedExact(name);
    if "MANIFEST-" <= name {
      NoNumberInManifest(name);
      ScanManifestExact(name);
    } else if ManifestName(name, fd.num) {
      NotManifest(name, fd.num);
    }
  }

  lemma NotManifest(name: string, v: int64)
    requires ManifestName(name, v)
    ensures "MANIFEST-" <= name
  {
  }

  /** What follows an accepted name on a further line does not matter. */
  lemma NextLineIgnored(name: string, rest: string)
    requires ParseName(name).Some?
    ensures ParseName(name + (['\n'] + rest)) == ParseName(name)
  {
    hide ParseName, ParseInt;
    var fd := ParseName(name).value;
    var more := ['\n'] + rest;
    NameExact(name, fd);
    NameExact(name + more, fd);
    if w :| NumberedName(name, fd.num, w) && ExtType(w) == Some(fd.ftype) {
      var b, x, c, t :| NumberedParts(name, b, x, c, w, t) && ParseInt(x) == Some(fd.num);
      NumberedLonger(name, b, x, c, w, t, more);
    } else {
      var b, x, c, t :| ManifestParts(name, b, x, c, t) && ParseInt(x) == Some(fd.num);
      ManifestLonger(name, b, x, c, t, more);
    }
  }

  lemma NumberedLonger(name: string, b: string, x: string, c: string, w: string, t: string, more: string)
    requires NumberedParts(name, b, x, c, w, t) && more != [] && more[0] == '\n'
    ensures NumberedParts(name + more, b, x, c, w, t + more)
  {
    hide ParseInt, NoSpace, Blanks;
    assert IsSpace('\n');
    assert c + w + (t + more) == c + w + t + more;
    assert name + more == b + x + (['.'] + (c + w + (t + more)));
  }

  lemma ManifestLonger(name: string, b: string, x: string, c: string, t: string, more: string)
    requires ManifestParts(name, b, x, c, t) && more != [] && more[0] == '\n'
    ensures ManifestParts(name + more, b, x, c, t + more)
  {
    hide ParseInt, Blanks;
    assert (name + more)[9..] == name[9..] + more;
    assert name[9..] + more == b + x + (c + (t + more));
  }

  // ---------------------------------------------------------------- round trips

  lemma ParseFormatInt6(n: int64)
    ensures ParseInt(FormatInt6(n)) == Some(n)
  {
    hide Digits, Pad, Value;
    var m: int := n;
    if m < 0 {
      PaddedDigits(-m, 5);
      assert FormatInt6(m)[1..] == Pad(Digits(-m), 5);
    } else {
      PaddedDigits(m, 6);
      assert IsDigit(FormatInt6(m)[0]);
    }
  }

  lemma ScanFormatInt6(n: int64, tail: string)
    requires tail == [] || !IsDigit(tail[0])
    ensures ScanInt(FormatInt6(n) + tail) == Some((n, tail))
  {
    hide ParseInt, FormatInt6, ScanInt;
    ParseFormatInt6(n);
    assert FormatInt6(n) + tail == [] + FormatInt6(n) + tail;
    ScanIntForward(FormatInt6(n) + tail, [], FormatInt6(n), tail);
  }

  /** A printed number with some text behind it names a file of the storage exactly if that text is
      a dot and, up to blanks, one of the extensions. */
  lemma NumberedTail(n: int64, tail: string)
    requires tail == [] || !IsDigit(tail[0])
    ensures ParseName(FormatInt6(n) + tail) ==
      if tail != [] && tail[0] == '.' && ScanWord(tail[1..]).Some? && ExtType(ScanWord(tail[1..]).value).Some?
      then Some(FileDesc(ExtType(ScanWord(tail[1..]).value).value, n)) else None
  {
    hide FormatInt6, ScanInt, ScanWord;
    ScanFormatInt6(n, tail);
    FormatInt6NonEmpty(n);
    FormatInt6Chars(n, 0);
    assert (FormatInt6(n) + tail)[0] == FormatInt6(n)[0] != 'M';
  }

  /** A manifest name with some text behind it is still one exactly if `%s` finds no word there. */
  lemma ManifestTail(n: int64, tail: string)
    requires tail == [] || !IsDigit(tail[0])
    ensures ParseName("MANIFEST-" + FormatInt6(n) + tail) ==
      if ScanWord(tail).None? then Some(FileDesc(Manifest, n)) else None
  {
    hide FormatInt6, ScanInt, ScanWord, ScanNumbered;
    var name := "MANIFEST-" + FormatInt6(n) + tail;
    NoNumberInManifest(name);
    assert name[9..] == FormatInt6(n) + tail;
    ScanFormatInt6(n, tail);
  }

  lemma ParseManifest(n: int64)
    ensures ParseName("MANIFEST-" + FormatInt6(n)) == Some(FileDesc(Manifest, n))
  {
    hide FormatInt6, ParseName;
    ManifestTail(n, []);
    assert "MANIFEST-" + FormatInt6(n) + [] == "MANIFEST-" + FormatInt6(n);
  }

  lemma ScanExtension(ext: string)
    requires ExtType(ext).Some?
    ensures ScanWord(ext) == Some(ext)
  {
    hide ScanWord;
    assert forall i :: 0 <= i < |ext| ==> ext[i] in "logdbstmp";
    assert NoSpace(ext);
    assert ext == [] + ext + [];
    ScanWordForward(ext, [], ext, []);
  }

  lemma ParseExtension(n: int64, ext: string, ftype: FileType)
    requires ExtType(ext) == Some(ftype)
    ensures ParseName(FormatInt6(n) + (['.'] + ext)) == Some(FileDesc(ftype, n))
  {
    hide ParseName, FormatInt6, ScanWord;
    ScanExtension(ext);
    assert (['.'] + ext)[1..] == ext;
    NumberedTail(n, ['.'] + ext);
  }

  /** A numeral with the prefix or extension of a file type. */
  function Styled(ftype: FileType, x: string, tableExt: string): (r: string)
    requires !ftype.Unknown?
  {
    match ftype case Manifest => "MANIFEST-" + x case Journal => x + ".log" case Table => x + tableExt case Temp => x + ".tmp"
  }

  /** What `fsGenName` and `fsGenOldName` print. */
  lemma GenNameExact(fd: FileDesc, name: string)
    requires !fd.ftype.Unknown?
    ensures name == GenName(fd) <==> exists x: string :: Printed(x, fd.num, 6) && name == Styled(fd.ftype, x, ".ldb")
    ensures name == GenOldName(fd) <==> exists x: string :: Printed(x, fd.num, 6) && name == Styled(fd.ftype, x, ".sst")
  {
    hide FormatInt6, Printed;
    forall x: string ensures x == FormatInt6(fd.num) <==> Printed(x, fd.num, 6) {
      FormatInt6Exact(fd.num, x);
    }
    assert Printed(FormatInt6(fd.num), fd.num, 6);
  }

  lemma ValueSnoc(s: string, c: char)
    requires AllDigits(s) && IsDigit(c)
    ensures AllDigits(s + [c]) && Value(s + [c]) == Value(s) * 10 + (c as int - '0' as int)
  {
    assert (s + [c])[..|s|] == s;
  }

  lemma DigitValue(c: char)
    requires IsDigit(c)
    ensures AllDigits([c]) && Value([c]) == c as int - '0' as int
  {
    assert [c][..0] == [];
  }

  lemma ValueOfFives()
    ensures AllDigits("000005") && Value("000005") == 5
    ensures AllDigits("00005") && Value("00005") == 5
  {
    hide Value;
    DigitValue('5');
    ValueAfterZeros(5, "5");
    ValueAfterZeros(4, "5");
    assert Zeros(1) == "0" && Zeros(2) == "00" && Zeros(3) == "000" && Zeros(4) == "0000" && Zeros(5) == "00000";
    assert "5" == ['5'] && Zeros(4) + "5" == "00005" && Zeros(5) + "5" == "000005";
  }

  lemma ValueOfSeven()
    ensures AllDigits("1234567") && Value("1234567") == 1234567
  {
    hide Value;
    DigitValue('1');
    ValueSnoc("1", '2');
    ValueSnoc("12", '3');
    ValueSnoc("123", '4');
    ValueSnoc("1234", '5');
    ValueSnoc("12345", '6');
    ValueSnoc("123456", '7');
    assert "1" == ['1'] && "12" == "1" + ['2'] && "123" == "12" + ['3'] && "1234" == "123" + ['4'];
    assert "12345" == "1234" + ['5'] && "123456" == "12345" + ['6'] && "1234567" == "123456" + ['7'];
  }

  /** Three names in full. */
  lemma GenNameExamples()
    ensures GenName(FileDesc(Manifest, 5)) == "MANIFEST-000005"
    ensures GenName(FileDesc(Table, 1234567)) == "1234567.ldb"
    ensures GenName(FileDesc(Journal, -5)) == "-00005.log"
  {
    hide FormatInt6, Value;
    ValueOfFives();
    ValueOfSeven();
    FormatInt6Exact(5, "000005");
    FormatInt6Exact(1234567, "1234567");
    assert "-00005"[1..] == "00005";
    FormatInt6Exact(-5, "-00005");
  }

  /** `fsParseName` undoes `fsGenName` on every descriptor with a known type. */
  lemma ParseGenName(fd: FileDesc)
    requires !fd.ftype.Unknown?
    ensures ParseName(GenName(fd)) == Some(fd)
  {
    match fd.ftype {
      case Manifest => ParseManifest(fd.num);
      case Journal => ParseJournal(fd.num);
      case Table => ParseTable(fd.num);
      case Temp => ParseTemp(fd.num);
    }
  }

  lemma ParseJournal(n: int64)
    ensures ParseName(GenName(FileDesc(Journal, n))) == Some(FileDesc(Journal, n))
  {
    hide ParseName, FormatInt6;
    ParseExtension(n, "log", Journal);
    assert FormatInt6(n) + (['.'] + "log") == FormatInt6(n) + ".log";
  }

  lemma ParseTable(n: int64)
    ensures ParseName(GenName(FileDesc(Table, n))) == Some(FileDesc(Table, n))
  {
    hide ParseName, FormatInt6;
    ParseExtension(n, "ldb", Table);
    assert FormatInt6(n) + (['.'] + "ldb") == FormatInt6(n) + ".ldb";
  }

  lemma ParseTemp(n: int64)
    ensures ParseName(GenName(FileDesc(Temp, n))) == Some(FileDesc(Temp, n))
  {
    hide ParseName, FormatInt6;
    ParseExtension(n, "tmp", Temp);
    assert FormatInt6(n) + (['.'] + "tmp") == FormatInt6(n) + ".tmp";
  }

  /** `fsParseName` undoes `fsGenOldName` as well. */
  lemma ParseGenOldName(fd: FileDesc)
    requires !fd.ftype.Unknown?
    ensures ParseName(GenOldName(fd)) == Some(fd)
  {
    hide ParseName, FormatInt6;
    if fd.ftype == Table {
      ParseExtension(fd.num, "sst", Table);
      assert ['.'] + "sst" == ".sst";
    } else {
      ParseGenName(fd);
    }
  }

  lemma GenNameInjective(a: FileDesc, b: FileDesc)
    requires !a.ftype.Unknown? && !b.ftype.Unknown?
    requires GenName(a) == GenName(b) || GenOldName(a) == GenOldName(b) || GenName(a) == GenOldName(b)
    ensures a == b
  {
    ParseGenName(a);
    ParseGenName(b);
    ParseGenOldName(a);
    ParseGenOldName(b);
  }

  lemma FormatInt6Chars(n: int, i: nat)
    requires i < |FormatInt6(n)|
    ensures IsDigit(FormatInt6(n)[i]) || FormatInt6(n)[i] == '-'
  {
    hide Pad, Digits, Value;
    if n < 0 { PaddedDigits(-n, 5); } else { PaddedDigits(n, 6); }
  }

  lemma FormatInt6NonEmpty(n: int)
    ensures FormatInt6(n) != []
  {
    if n < 0 { PaddedDigits(-n, 5); } else { PaddedDigits(n, 6); }
  }

  /** No generated name holds a newline or starts like a CURRENT file. */
  lemma GenNameChars(fd: FileDesc)
    requires !fd.ftype.Unknown?
    ensures '\n' !in GenName(fd)
    ensures GenName(fd) != [] && GenName(fd)[0] != 'C'
  {
    hide FormatInt6;
    var f := FormatInt6(fd.num);
    forall i | 0 <= i < |f| ensures f[i] != '\n' && f[i] != 'C' {
      FormatInt6Chars(fd.num, i);
    }
    FormatInt6NonEmpty(fd.num);
  }
}
