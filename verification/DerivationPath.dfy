/** Derivation paths of hierarchical wallets: sequences of 32-bit components, printed and
    parsed in the form of the "Path levels" section of BIP-44. */
module DerivationPaths {
  const HARDENED: nat := 0x8000_0000
  const MAX_UINT32: nat := 0xFFFF_FFFF
  const ROOT_PATH: seq<nat> := [0x8000_0000 + 44, 0x8000_0000 + 60, 0x8000_0000, 0]

  datatype ParseError = EmptyPath | AmbiguousPath | InvalidComponent | OutOfRange

  datatype Parsed<T> = Path(value: T) | Error(error: ParseError)

  /** The pieces of a text between the separators. */
  function Split(s: string): (pieces: seq<string>)
    ensures pieces != []
  {
    if s == "" then [""] else
      var init, last := Split(s[..|s| - 1]), s[|s| - 1];
      if last == '/' then init + [""] else init[..|init| - 1] + [init[|init| - 1] + [last]]
  }

  /** The white space characters of Unicode. */
  predicate IsSpace(c: char) {
    var code := c as int;
    || 0x09 <= code <= 0x0D || code == 0x20 || code == 0x85 || code == 0xA0 || code == 0x1680
    || 0x2000 <= code <= 0x200A
    || code == 0x2028 || code == 0x2029 || code == 0x202F || code == 0x205F || code == 0x3000
  }

  predicate IsDigit(c: char) {
    '0' <= c <= '9'
  }

  function TrimSpace(s: string): string
    decreases |s|
  {
    if s == "" then s
    else if IsSpace(s[0]) then TrimSpace(s[1..])
    else if IsSpace(s[|s| - 1]) then TrimSpace(s[..|s| - 1])
    else s
  }

  /** What the scanner has seen last: a digit, a digit separator, or neither. */
  datatype Previous = Digit | Separator | Other

  datatype Scan = Scan(value: nat, count: nat, previous: Previous) | Invalid

  function DigitValue(c: char): nat {
    if '0' <= c <= '9' then (c - '0') as nat
    else if 'a' <= c <= 'z' then (c - 'a') as nat + 10
    else if 'A' <= c <= 'Z' then (c - 'A') as nat + 10
    else 63
  }

  /** Reads digits of a base; a separator may only follow a digit or a base prefix. */
  function ScanDigits(s: string, base: nat, start: Previous): Scan {
    if s == "" then Scan(0, 0, start) else
      var scan, c := ScanDigits(s[..|s| - 1], base, start), s[|s| - 1];
      if scan.Invalid? then Invalid
      else if c == '_' then (if scan.previous.Digit? then scan.(previous := Separator) else Invalid)
      else if DigitValue(c) < base then Scan(Shifted(scan.value, base, DigitValue(c)), scan.count + 1, Digit)
      else Invalid
  }

  function Shifted(value: nat, base: nat, digit: nat): nat {
    value * base + digit
  }

  function Number(scan: Scan): Parsed<nat> {
    if scan.Scan? && scan.count > 0 && !scan.previous.Separator? then Path(scan.value) else Error(InvalidComponent)
  }

  /** A number with its base given by its prefix. */
  function ScanNat(s: string): Parsed<nat> {
    if s == "" then Error(InvalidComponent)
    else if s[0] != '0' then Number(ScanDigits(s, 10, Other))
    else if |s| == 1 then Path(0)
    else if s[1] == 'b' || s[1] == 'B' then Number(ScanDigits(s[2..], 2, Digit))
    else if s[1] == 'o' || s[1] == 'O' then Number(ScanDigits(s[2..], 8, Digit))
    else if s[1] == 'x' || s[1] == 'X' then Number(ScanDigits(s[2..], 16, Digit))
    else Number(ScanDigits(s[1..], 8, Digit))
  }

  function ScanInt(s: string): Parsed<int> {
    if s != "" && (s[0] == '+' || s[0] == '-') then
      var abs := ScanNat(s[1..]);
      if abs.Error? then Error(abs.error) else Path(if s[0] == '-' then 0 - abs.value else abs.value)
    else
      var abs := ScanNat(s);
      if abs.Error? then Error(abs.error) else Path(abs.value)
  }

  function ParseNumber(s: string, hardened: nat): (r: Parsed<nat>)
    requires hardened <= MAX_UINT32
    ensures r.Path? ==> r.value <= MAX_UINT32
  {
    var number := ScanInt(s);
    if number.Error? then Error(number.error)
    else if number.value < 0 || number.value > MAX_UINT32 - hardened then Error(OutOfRange)
    else Path(hardened + number.value)
  }

  function ParseComponent(text: string): (r: Parsed<nat>)
    ensures r.Path? ==> r.value <= MAX_UINT32
  {
    var s := TrimSpace(text);
    if s != "" && s[|s| - 1] == '\'' then ParseNumber(TrimSpace(s[..|s| - 1]), HARDENED) else ParseNumber(s, 0)
  }

  /** The components of a path, or the first error. */
  function ParseAll(pieces: seq<string>): (r: Parsed<seq<nat>>)
    ensures r.Path? ==> |r.value| == |pieces| && forall i :: 0 <= i < |pieces| ==> r.value[i] <= MAX_UINT32
  {
    if pieces == [] then Path([]) else
      var init := ParseAll(pieces[..|pieces| - 1]);
      if init.Error? then init else
        var last := ParseComponent(pieces[|pieces| - 1]);
        if last.Error? then Error(last.error) else Path(init.value + [last.value])
  }

  /** An absolute path starts with "m"; any other is taken from the default root. */
  function Parse(path: string): Parsed<seq<nat>> {
    var pieces := Split(path);
    var first := TrimSpace(pieces[0]);
    if first == "" then Error(AmbiguousPath)
    else if first == "m" && |pieces| == 1 then Error(EmptyPath)
    else if first == "m" then ParseAll(pieces[1..])
    else
      var rest := ParseAll(pieces);
      if rest.Error? then rest else Path(ROOT_PATH + rest.value)
  }

  function DigitChar(d: nat): (c: char)
    requires d < 10
    ensures IsDigit(c) && DigitValue(c) == d && (c == '0' <==> d == 0)
  {
    '0' + d as char
  }

  function Decimal(n: nat): (s: string)
    ensures s != ""
  {
    (if n < 10 then "" else Decimal(n / 10)) + [DigitChar(n % 10)]
  }

  function PrintComponent(component: nat): string {
    if component >= HARDENED then Decimal(component - HARDENED) + "'" else Decimal(component)
  }

  function Print(path: seq<nat>): string {
    if path == [] then "m" else Print(path[..|path| - 1]) + "/" + PrintComponent(path[|path| - 1])
  }

  predicate IsPath(path: seq<nat>) {
    path != [] && forall i :: 0 <= i < |path| ==> path[i] <= MAX_UINT32
  }

  lemma {:induction false} SplitJoined(s: string, t: string)
    requires '/' !in t
    ensures Split(s + "/" + t) == Split(s) + [t]
    decreases |t|
  {
    if t == "" {
      assert s + "/" + t == s + ['/'];
      SplitNext(s, '/');
    } else {
      var init, last := t[..|t| - 1], t[|t| - 1];
      assert t == init + [last] && last in t;
      assert s + "/" + t == s + "/" + init + [last];
      SplitJoined(s, init);
      SplitNext(s + "/" + init, last);
      LastExtended(Split(s), init, last);
    }
  }

  lemma SplitNext(s: string, c: char)
    ensures Split(s + [c]) ==
      var init := Split(s); if c == '/' then init + [""] else init[..|init| - 1] + [init[|init| - 1] + [c]]
  {
    var whole := s + [c];
    assert whole[..|whole| - 1] == s && whole[|whole| - 1] == c;
  }

  lemma LastExtended(pieces: seq<string>, piece: string, c: char)
    ensures var all := pieces + [piece]; all[..|all| - 1] + [all[|all| - 1] + [c]] == pieces + [piece + [c]]
  {
  }

  lemma {:induction false} DecimalDigits(n: nat)
    ensures forall c :: c in Decimal(n) ==> IsDigit(c)
    ensures Decimal(n)[0] == '0' <==> n == 0
    ensures n == 0 ==> Decimal(n) == "0"
  {
    if n >= 10 {
      DecimalDigits(n / 10);
      assert Decimal(n)[0] == Decimal(n / 10)[0];
    }
  }

  lemma {:induction false} DecimalScans(n: nat)
    ensures ScanDigits(Decimal(n), 10, Other) == Scan(n, |Decimal(n)|, Digit)
  {
    var s := Decimal(n);
    var c := DigitChar(n % 10);
    if n < 10 {
      assert s == [c] && s[..0] == "";
      assert ScanDigits("", 10, Other) == Scan(0, 0, Other);
    } else {
      DecimalScans(n / 10);
      assert s[..|s| - 1] == Decimal(n / 10) && s[|s| - 1] == c;
    }
  }

  lemma DecimalParses(n: nat)
    ensures ScanInt(Decimal(n)) == Path(n)
  {
    DecimalDigits(n);
    DecimalScans(n);
    var s := Decimal(n);
    assert s[0] in s && IsDigit(s[0]);
    if n > 0 {
      assert ScanNat(s) == Number(ScanDigits(s, 10, Other));
    } else {
      assert ScanNat(s) == Path(0);
    }
    Unsigned(s);
  }

  lemma Unsigned(s: string)
    requires s != "" && IsDigit(s[0]) && ScanNat(s).Path?
    ensures ScanInt(s) == Path(ScanNat(s).value)
  {
  }

  lemma NotSpace(c: char)
    requires IsDigit(c) || c == '\''
    ensures !IsSpace(c)
  {
  }

  lemma TrimNothing(s: string)
    requires s == "" || (!IsSpace(s[0]) && !IsSpace(s[|s| - 1]))
    ensures TrimSpace(s) == s
  {
  }

  lemma PlainRoundTrip(n: nat)
    requires n < HARDENED
    ensures ParseComponent(Decimal(n)) == Path(n) && '/' !in Decimal(n)
  {
    var s := Decimal(n);
    DecimalDigits(n);
    DecimalParses(n);
    TrimDecimal(n);
    assert s[|s| - 1] in s;
  }

  lemma HardenedRoundTrip(n: nat)
    requires n < HARDENED
    ensures ParseComponent(Decimal(n) + "'") == Path(n + HARDENED) && '/' !in Decimal(n) + "'"
  {
    var s := Decimal(n) + "'";
    DecimalParses(n);
    TrimDecimal(n);
    assert s[..|s| - 1] == Decimal(n) && s[|s| - 1] == '\'';
  }

  /** A printed component is parsed back, hardened mark included. */
  lemma ComponentRoundTrip(component: nat)
    requires component <= MAX_UINT32
    ensures ParseComponent(PrintComponent(component)) == Path(component)
    ensures '/' !in PrintComponent(component)
  {
    if component >= HARDENED {
      HardenedRoundTrip(component - HARDENED);
    } else {
      PlainRoundTrip(component);
    }
  }

  lemma TrimDecimal(n: nat)
    ensures TrimSpace(Decimal(n)) == Decimal(n) && TrimSpace(Decimal(n) + "'") == Decimal(n) + "'"
    ensures '/' !in Decimal(n)
  {
    var s := Decimal(n);
    DecimalDigits(n);
    assert s[0] in s && s[|s| - 1] in s;
    NotSpace(s[0]);
    NotSpace(s[|s| - 1]);
    NotSpace('\'');
    TrimNothing(s);
    TrimNothing(s + "'");
  }

  /** The printed components of a path. */
  function Pieces(path: seq<nat>): (pieces: seq<string>)
    ensures |pieces| == |path|
  {
    if path == [] then [] else Pieces(path[..|path| - 1]) + [PrintComponent(path[|path| - 1])]
  }

  lemma SplitSingle(c: char)
    requires c != '/'
    ensures Split([c]) == [[c]]
  {
    var s, none := [c], Split("");
    assert s[..0] == "";
    assert none[0] + [c] == [c];
    assert none[..|none| - 1] == [];
  }

  lemma {:induction false} SplitPrinted(path: seq<nat>)
    requires forall i :: 0 <= i < |path| ==> path[i] <= MAX_UINT32
    ensures Split(Print(path)) == ["m"] + Pieces(path)
    decreases |path|
  {
    if path == [] {
      SplitSingle('m');
    } else {
      var init, last := path[..|path| - 1], path[|path| - 1];
      SplitPrinted(init);
      ComponentRoundTrip(last);
      SplitJoined(Print(init), PrintComponent(last));
    }
  }

  lemma PiecesParse(path: seq<nat>)
    requires forall i :: 0 <= i < |path| ==> path[i] <= MAX_UINT32
    ensures ParseAll(Pieces(path)) == Path(path)
  {
    forall i | 0 <= i < |path| ensures ParseComponent(Pieces(path)[i]) == Path(path[i]) {
      PiecesAt(path, i);
      ComponentRoundTrip(path[i]);
    }
    AllParse(Pieces(path), path);
  }

  lemma {:induction false} PiecesAt(path: seq<nat>, i: nat)
    requires i < |path|
    ensures Pieces(path)[i] == PrintComponent(path[i])
    decreases |path|
  {
    if i < |path| - 1 {
      PiecesAt(path[..|path| - 1], i);
    }
  }

  lemma {:induction false} AllParse(pieces: seq<string>, path: seq<nat>)
    requires |pieces| == |path| && forall i :: 0 <= i < |path| ==> ParseComponent(pieces[i]) == Path(path[i])
    ensures ParseAll(pieces) == Path(path)
    decreases |path|
  {
    if path != [] {
      var n := |path| - 1;
      AllParse(pieces[..n], path[..n]);
      ParseNext(pieces[..n], pieces[n], path[..n], path[n]);
      assert pieces == pieces[..n] + [pieces[n]] && path == path[..n] + [path[n]];
    }
  }

  lemma ParseNext(pieces: seq<string>, piece: string, init: seq<nat>, last: nat)
    requires ParseAll(pieces) == Path(init) && ParseComponent(piece) == Path(last)
    ensures ParseAll(pieces + [piece]) == Path(init + [last])
  {
    var all := pieces + [piece];
    assert all[..|all| - 1] == pieces;
  }

  /** Parsing a printed path returns it. */
  lemma RoundTrip(path: seq<nat>)
    requires IsPath(path)
    ensures Parse(Print(path)) == Path(path)
  {
    SplitPrinted(path);
    PiecesParse(path);
    TrimNothing("m");
    assert (["m"] + Pieces(path))[1..] == Pieces(path);
  }

  /** Whatever parses is a path, and printing and parsing it again changes nothing. */
  lemma Stable(text: string)
    requires Parse(text).Path?
    ensures IsPath(Parse(text).value)
    ensures Parse(Print(Parse(text).value)) == Parse(text)
  {
    RoundTrip(Parse(text).value);
  }

  /** Parses a path component by component. */
  method ParseDerivationPath(path: string) returns (r: Parsed<seq<nat>>)
    ensures r == Parse(path)
  {
    var result: seq<nat> := [];
    var components := Split(path);
    var first := TrimSpace(components[0]);
    if first == "" {
      return Error(AmbiguousPath);
    } else if first == "m" {
      components := components[1..];
    } else {
      result := ROOT_PATH;
    }
    if components == [] {
      return Error(EmptyPath);
    }
    r := AppendComponents(result, components);
    assert r.Path? && result == [] ==> r.value == ParseAll(components).value;
  }

  /** Appends the components to a path one by one. */
  method AppendComponents(root: seq<nat>, components: seq<string>) returns (r: Parsed<seq<nat>>)
    ensures r == var rest := ParseAll(components); if rest.Error? then rest else Path(root + rest.value)
  {
    var result := root;
    var i: nat := 0;
    while i < |components|
      invariant i <= |components|
      invariant ParseAll(components[..i]).Path? && result == root + ParseAll(components[..i]).value
    {
      assert components[..i + 1][..i] == components[..i];
      var component := ParseComponent(components[i]);
      if component.Error? {
        FirstError(components, i + 1);
        return Error(component.error);
      }
      result := result + [component.value];
      i := i + 1;
    }
    assert components[..i] == components;
    return Path(result);
  }

  /** The first error is the error. */
  lemma {:induction false} FirstError(pieces: seq<string>, i: nat)
    requires i <= |pieces| && ParseAll(pieces[..i]).Error?
    ensures ParseAll(pieces) == ParseAll(pieces[..i])
    decreases |pieces|
  {
    if i < |pieces| {
      assert pieces[..|pieces| - 1][..i] == pieces[..i];
      FirstError(pieces[..|pieces| - 1], i);
    } else {
      assert pieces[..i] == pieces;
    }
  }

  /** Prints a path component by component. */
  method PrintDerivationPath(path: seq<nat>) returns (result: string)
    ensures result == Print(path)
  {
    result := "m";
    var i: nat := 0;
    while i < |path|
      invariant i <= |path| && result == Print(path[..i])
    {
      assert path[..i + 1][..i] == path[..i];
      var component := path[i];
      var hardened := false;
      if component >= HARDENED {
        component := component - HARDENED;
        hardened := true;
      }
      var printed := Decimal(component);
      if hardened {
        printed := printed + "'";
      }
      result := result + "/" + printed;
      i := i + 1;
    }
    assert path[..i] == path;
  }
}
