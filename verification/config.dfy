/** The key/value configuration reader: lines of `name = value`, comments
    starting with '#', and typed lookups that stop the program when a key is
    missing. */
module Settings {
  import opened Common

  // ---------------------------------------------------------------------------
  // strip
  // ---------------------------------------------------------------------------

  predicate AllSpaces(s: string)
  {
    forall i | 0 <= i < |s| :: s[i] == ' '
  }

  /** `find_first_not_of(' ', from)`: the first index at or after from that
      holds something other than ' ', or -1 (npos) when there is none. */
  function FirstNotSpace(s: string, from: nat): (r: int)
    ensures r == -1 || from <= r < |s|
    ensures r == -1 ==> forall i | from <= i < |s| :: s[i] == ' '
    ensures r >= 0 ==> s[r] != ' ' && forall i | from <= i < r :: s[i] == ' '
    decreases |s| - from
  {
    if from >= |s| then -1
    else if s[from] != ' ' then from
    else FirstNotSpace(s, from + 1)
  }

  /** `find_last_not_of(' ')` within the first upto characters: the last
      index below upto that holds something other than ' ', or -1. */
  function LastNotSpace(s: string, upto: nat): (r: int)
    requires upto <= |s|
    ensures -1 <= r < upto
    ensures r == -1 ==> forall i | 0 <= i < upto :: s[i] == ' '
    ensures r >= 0 ==> s[r] != ' ' && forall i | r < i < upto :: s[i] == ' '
  {
    if upto == 0 then -1
    else if s[upto - 1] != ' ' then upto - 1
    else LastNotSpace(s, upto - 1)
  }

  /** `strip`: the text between the first and the last character other than
      ' ', or the input itself when it has no such character. */
  function Strip(s: string): (r: string)
  {
    var beg := FirstNotSpace(s, 0);
    if beg == -1 then s
    else
      var end := LastNotSpace(s, |s|);
      s[beg..end + 1]
  }

  /** For a string with a character other than ' ', strip removes ' '
      characters only, from both ends: the result is a slice of the input
      with nothing but ' ' around it. */
  lemma StripRemovesSpaces(s: string)
    requires !AllSpaces(s)
    ensures exists b, e | 0 <= b <= e <= |s| ::
      Strip(s) == s[b..e] && AllSpaces(s[..b]) && AllSpaces(s[e..])
  {
    var beg, end := FirstNotSpace(s, 0), LastNotSpace(s, |s|);
    assert AllSpaces(s[..beg]);
    assert AllSpaces(s[end + 1..]);
  }

  /** What strip leaves is either spaces only (as it was) or starts and ends
      with something other than ' '. */
  lemma StripEnds(s: string)
    ensures var r := Strip(s);
      if AllSpaces(s) then r == s else |r| > 0 && r[0] != ' ' && r[|r| - 1] != ' '
  {
    if AllSpaces(s) {
      assert FirstNotSpace(s, 0) == -1;
    }
  }

  /** A string of spaces only, the empty one included, comes back as it is. */
  lemma StripKeepsSpaces(s: string)
    requires AllSpaces(s)
    ensures Strip(s) == s
  {
    StripEnds(s);
  }

  /** Stripping twice is stripping once. */
  lemma StripIdempotent(s: string)
    ensures Strip(Strip(s)) == Strip(s)
  {
    StripEnds(s);
    if !AllSpaces(s) {
      var r := Strip(s);
      assert FirstNotSpace(r, 0) == 0;
      assert LastNotSpace(r, |r|) == |r| - 1;
      assert r[0..|r|] == r;
    }
  }

  // ---------------------------------------------------------------------------
  // One line of the file
  // ---------------------------------------------------------------------------

  /** The characters `operator>>` and `isspace` treat as white space. */
  predicate IsSpace(c: char)
  {
    c == ' ' || c == '\t' || c == '\n' || c == '\r' || c as int == 11 || c as int == 12
  }

  /** The first index at or after i that is not white space, or |s|. */
  function SkipSpace(s: string, i: nat): (r: nat)
    requires i <= |s|
    ensures i <= r <= |s| && (r < |s| ==> !IsSpace(s[r]))
    ensures forall j | i <= j < r :: IsSpace(s[j])
    decreases |s| - i
  {
    if i == |s| || !IsSpace(s[i]) then i else SkipSpace(s, i + 1)
  }

  /** The first index at or after i that is white space, or |s|. */
  function TokenEnd(s: string, i: nat): (r: nat)
    requires i <= |s|
    ensures i <= r <= |s| && (r < |s| ==> IsSpace(s[r]))
    ensures forall j | i <= j < r :: !IsSpace(s[j])
    decreases |s| - i
  {
    if i == |s| || IsSpace(s[i]) then i else TokenEnd(s, i + 1)
  }

  /** The index of the first '=' at or after i, or |s|. */
  function FindEquals(s: string, i: nat): (r: nat)
    requires i <= |s|
    ensures i <= r <= |s| && (r < |s| ==> s[r] == '=')
    ensures forall j | i <= j < r :: s[j] != '='
    decreases |s| - i
  {
    if i == |s| || s[i] == '=' then i else FindEquals(s, i + 1)
  }

  /** What `load` makes of one line: nothing for a line that is empty after
      stripping or starts with '#', and otherwise a binding. */
  function ParseLine(raw: string): Option<(string, string)>
  {
    var line := Strip(raw);
    if line == "" || line[0] == '#' then None else Some(Binding(line))
  }

  /** The binding of a stripped line: the first white-space-delimited token
      as the name (empty when there is none) and, as the value, the stripped
      text after the first '=' that follows the token (empty when there is
      no such '='). */
  function Binding(line: string): (string, string)
  {
    var b := SkipSpace(line, 0);
    if b == |line| then ("", "")
    else
      var e := TokenEnd(line, b);
      (Strip(line[b..e]), Strip(ValueText(line, e)))
  }

  /** The text after the first '=' at or after e, or "" without one. */
  function ValueText(line: string, e: nat): string
    requires e <= |line|
  {
    var k := FindEquals(line, e);
    if k == |line| then "" else line[k + 1..]
  }

  /** A string that neither starts nor ends with ' ' is its own strip. */
  lemma StripUntrimmed(s: string)
    requires |s| > 0 ==> s[0] != ' ' && s[|s| - 1] != ' '
    ensures Strip(s) == s
  {
    if |s| > 0 {
      assert FirstNotSpace(s, 0) == 0;
      assert LastNotSpace(s, |s|) == |s| - 1;
      assert s[0..|s|] == s;
    }
  }

  /** A stripped line binds a name free of white space to a value that
      neither starts nor ends with ' '. */
  lemma BindingShape(line: string)
    requires AllSpaces(line) || (|line| > 0 && line[|line| - 1] != ' ')
    ensures var (name, value) := Binding(line);
      (forall i | 0 <= i < |name| :: !IsSpace(name[i])) &&
      (|value| > 0 ==> value[0] != ' ' && value[|value| - 1] != ' ')
  {
    var b := SkipSpace(line, 0);
    if b < |line| {
      var e := TokenEnd(line, b);
      var token := line[b..e];
      assert |token| > 0 ==> token[0] == line[b] && token[|token| - 1] == line[e - 1];
      StripUntrimmed(token);
      var value := ValueText(line, e);
      assert |value| > 0 ==> value[|value| - 1] == line[|line| - 1];
      StripEnds(value);
    }
  }

  /** A parsed line binds a name free of white space to a value that neither
      starts nor ends with ' '. */
  lemma ParseLineShape(raw: string)
    requires ParseLine(raw).Some?
    ensures var (name, value) := ParseLine(raw).value;
      (forall i | 0 <= i < |name| :: !IsSpace(name[i])) &&
      (|value| > 0 ==> value[0] != ' ' && value[|value| - 1] != ' ')
  {
    StripEnds(raw);
    BindingShape(Strip(raw));
  }

  /** The last character other than ' ' below upto is at i. */
  lemma LastNotSpaceAt(s: string, upto: nat, i: nat)
    requires i < upto <= |s| && s[i] != ' ' && forall j | i < j < upto :: s[j] == ' '
    ensures LastNotSpace(s, upto) == i
    decreases upto
  {
    if upto - 1 > i {
      LastNotSpaceAt(s, upto - 1, i);
    }
  }

  lemma TokenEndExact(s: string, i: nat, n: nat)
    requires i + n <= |s| && forall j | i <= j < i + n :: !IsSpace(s[j])
    requires i + n < |s| ==> IsSpace(s[i + n])
    ensures TokenEnd(s, i) == i + n
    decreases n
  {
    if n > 0 {
      TokenEndExact(s, i + 1, n - 1);
    }
  }

  /** The line `name = value` strips to itself, or to `name =` when the
      value is empty. */
  lemma StripWritten(name: string, value: string)
    requires |name| > 0 && name[0] != ' ' && name[|name| - 1] != ' '
    requires |value| > 0 ==> value[0] != ' ' && value[|value| - 1] != ' '
    ensures Strip(name + " = " + value) == if |value| > 0 then name + " = " + value else name + " ="
  {
    var line := name + " = " + value;
    var n := |name|;
    assert FirstNotSpace(line, 0) == 0;
    if |value| > 0 {
      LastNotSpaceAt(line, |line|, |line| - 1);
      assert line[0..|line|] == line;
    } else {
      LastNotSpaceAt(line, |line|, n + 1);
      assert line[0..n + 2] == name + " =";
    }
  }

  /** In the stripped line `name = value` the token is the name and the
      text after the '=' is " " followed by the value. */
  lemma WrittenParts(name: string, value: string, line: string)
    requires |name| > 0 && forall i | 0 <= i < |name| :: !IsSpace(name[i]) && name[i] != '='
    requires line == if |value| > 0 then name + " = " + value else name + " ="
    ensures SkipSpace(line, 0) == 0 && TokenEnd(line, 0) == |name| && line[0..|name|] == name
    ensures ValueText(line, |name|) == if |value| > 0 then " " + value else ""
  {
    var n := |name|;
    assert line[..n] == name && line[n] == ' ' && line[n + 1] == '=';
    TokenEndExact(line, 0, n);
    assert FindEquals(line, n) == n + 1;
    if |value| > 0 {
      var head := name + " =";
      assert line == head + (" " + value) && |head| == n + 2;
    }
  }

  /** A space in front of a value with no ' ' at its ends is stripped off. */
  lemma StripLeadingSpace(value: string)
    requires |value| > 0 && value[0] != ' ' && value[|value| - 1] != ' '
    ensures Strip(" " + value) == value
  {
    var t := " " + value;
    assert FirstNotSpace(t, 0) == 1;
    LastNotSpaceAt(t, |t|, |t| - 1);
    assert t[1..|t|] == value;
  }

  /** A line written as `name = value` reads back as that binding, for a
      name that is a single token without '=' and not a comment, and a value
      without ' ' at either end. */
  lemma ParseWritten(name: string, value: string)
    requires |name| > 0 && name[0] != '#'
    requires forall i | 0 <= i < |name| :: !IsSpace(name[i]) && name[i] != '='
    requires |value| > 0 ==> value[0] != ' ' && value[|value| - 1] != ' '
    ensures ParseLine(name + " = " + value) == Some((name, value))
  {
    StripWritten(name, value);
    var line := Strip(name + " = " + value);
    WrittenParts(name, value, line);
    StripUntrimmed(name);
    if |value| > 0 {
      StripLeadingSpace(value);
    } else {
      StripUntrimmed(value);
    }
  }

  /** The parse of every line, in order. */
  function Entries(lines: seq<string>): (es: seq<Option<(string, string)>>)
    ensures |es| == |lines| && forall i | 0 <= i < |lines| :: es[i] == ParseLine(lines[i])
  {
    seq(|lines|, i requires 0 <= i < |lines| => ParseLine(lines[i]))
  }

  /** The bindings after the parsed lines are read into d in order: each
      binding sets its name to its value. */
  function Bind(d: map<string, string>, entries: seq<Option<(string, string)>>): map<string, string>
  {
    if |entries| == 0 then d
    else
      var before := Bind(d, entries[..|entries| - 1]);
      match entries[|entries| - 1]
      case None => before
      case Some((name, value)) => before[name := value]
  }

  /** Reading one more line binds its entry, if any, after the earlier ones. */
  lemma BindStep(d: map<string, string>, lines: seq<string>, i: nat)
    requires i < |lines|
    ensures Bind(d, Entries(lines[..i + 1])) ==
      match ParseLine(lines[i])
      case None => Bind(d, Entries(lines[..i]))
      case Some((name, value)) => Bind(d, Entries(lines[..i]))[name := value]
  {
    assert Entries(lines[..i + 1])[..i] == Entries(lines[..i]);
  }

  predicate Defines(entry: Option<(string, string)>, name: string)
  {
    entry.Some? && entry.value.0 == name
  }

  /** The line that defines name last decides its value. */
  lemma {:induction false} LastWriteWins(d: map<string, string>, entries: seq<Option<(string, string)>>,
                                         i: int, name: string, value: string)
    requires 0 <= i < |entries| && entries[i] == Some((name, value))
    requires forall j | i < j < |entries| :: !Defines(entries[j], name)
    ensures name in Bind(d, entries) && Bind(d, entries)[name] == value
  {
    var n := |entries|;
    if i < n - 1 {
      var init := entries[..n - 1];
      assert init[i] == entries[i];
      assert !Defines(entries[n - 1], name);
      LastWriteWins(d, init, i, name, value);
    }
  }

  /** A name no line defines keeps its binding, or stays unbound. */
  lemma {:induction false} UndefinedKept(d: map<string, string>, entries: seq<Option<(string, string)>>,
                                         name: string)
    requires forall j | 0 <= j < |entries| :: !Defines(entries[j], name)
    ensures (name in Bind(d, entries) <==> name in d)
    ensures name in d ==> Bind(d, entries)[name] == d[name]
  {
    if |entries| > 0 {
      assert !Defines(entries[|entries| - 1], name);
      UndefinedKept(d, entries[..|entries| - 1], name);
    }
  }

  // ---------------------------------------------------------------------------
  // sscanf("%d")
  // ---------------------------------------------------------------------------

  predicate IsDigit(c: char) { '0' <= c <= '9' }

  /** The number of decimal digits starting at i. */
  function DigitRun(s: string, i: nat): (n: nat)
    requires i <= |s|
    ensures i + n <= |s| && (i + n < |s| ==> !IsDigit(s[i + n]))
    ensures forall j | i <= j < i + n :: IsDigit(s[j])
    decreases |s| - i
  {
    if i == |s| || !IsDigit(s[i]) then 0 else 1 + DigitRun(s, i + 1)
  }

  /** The value of a string of decimal digits. */
  function DigitsValue(ds: string): (v: int)
    requires forall j | 0 <= j < |ds| :: IsDigit(ds[j])
    ensures v >= 0
  {
    if |ds| == 0 then 0
    else
      var c := ds[|ds| - 1];
      assert IsDigit(c);
      DigitsValue(ds[..|ds| - 1]) * 10 + (c as int - '0' as int)
  }

  /** `sscanf(s, "%d", &ret) == 1`: after white space, an optional sign and
      at least one digit; the digits that follow are the magnitude, and the
      rest of the text is ignored. */
  function ScanInt(s: string): (r: Option<int>)
    ensures r.Some? <==> DigitsStart(s) < |s| && IsDigit(s[DigitsStart(s)])
  {
    var b := SkipSpace(s, 0);
    var negative := b < |s| && s[b] == '-';
    match Magnitude(s, DigitsStart(s))
    case None => None
    case Some(m) => Some(if negative then -m else m)
  }

  /** Where the digits of `%d` begin: after white space and one optional
      sign. */
  function DigitsStart(s: string): (start: nat)
    ensures start <= |s|
  {
    var b := SkipSpace(s, 0);
    if b < |s| && (s[b] == '-' || s[b] == '+') then b + 1 else b
  }

  /** The value of the digits starting at start, if there is at least one. */
  function Magnitude(s: string, start: nat): (r: Option<int>)
    requires start <= |s|
    ensures r.Some? <==> start < |s| && IsDigit(s[start])
  {
    var n := DigitRun(s, start);
    if n == 0 then None else Some(DigitsValue(s[start..start + n]))
  }

  /** The decimal digits of a natural number. */
  function ShowNat(n: nat): (s: string)
    ensures |s| > 0 && forall j | 0 <= j < |s| :: IsDigit(s[j])
  {
    var d := (n % 10 + '0' as int) as char;
    if n < 10 then [d] else ShowNat(n / 10) + [d]
  }

  /** An integer in decimal, with '-' in front when it is negative. */
  function Show(n: int): string
  {
    if n < 0 then "-" + ShowNat(-n) else ShowNat(n)
  }

  lemma {:induction false} ShowNatValue(n: nat)
    ensures DigitsValue(ShowNat(n)) == n
  {
    var s := ShowNat(n);
    if n >= 10 {
      ShowNatValue(n / 10);
      assert s[..|s| - 1] == ShowNat(n / 10);
    }
  }

  /** Reading back a written integer gives the integer, whatever text that
      does not start with a digit follows it. */
  lemma ScanShow(n: int, rest: string)
    requires |rest| > 0 ==> !IsDigit(rest[0])
    ensures ScanInt(Show(n) + rest) == Some(n)
  {
    var m := if n < 0 then -n else n;
    var digits := ShowNat(m);
    var sign := if n < 0 then "-" else "";
    var s := Show(n) + rest;
    assert s == sign + (digits + rest);
    ShowNatValue(m);
    ScanDigits(sign, digits, rest);
  }

  /** A sign of at most one character, digits, then text not starting with a
      digit: exactly those digits are read. */
  lemma ScanDigits(sign: string, digits: string, rest: string)
    requires sign == "" || sign == "-"
    requires |digits| > 0 && forall j | 0 <= j < |digits| :: IsDigit(digits[j])
    requires |rest| > 0 ==> !IsDigit(rest[0])
    ensures ScanInt(sign + (digits + rest)) ==
      Some(if sign == "-" then -DigitsValue(digits) else DigitsValue(digits))
  {
    var s := sign + (digits + rest);
    SignedStart(sign, digits + rest);
    DigitsThenRest(s, |sign|, digits, rest);
    ScanFrom(s, |sign|, digits, sign == "-");
  }

  /** Text that starts with a digit or a minus followed by a digit: the
      number begins right after the sign. */
  lemma SignedStart(sign: string, t: string)
    requires sign == "" || sign == "-"
    requires |t| > 0 && IsDigit(t[0])
    ensures SkipSpace(sign + t, 0) == 0 && DigitsStart(sign + t) == |sign|
    ensures (sign + t)[|sign|..] == t
    ensures (sign + t)[0] == '-' <==> sign == "-"
  {
    var s := sign + t;
    assert s[0] == if sign == "-" then '-' else t[0];
    assert s[0] != ' ' && !IsSpace(s[0]) && (sign == "" ==> s[0] != '-' && s[0] != '+');
    assert SkipSpace(s, 0) == 0;
    assert s[|sign|..] == t;
  }

  /** A run of digits where the number begins is read with the sign found
      before it. */
  lemma ScanFrom(s: string, start: nat, digits: string, negative: bool)
    requires DigitsStart(s) == start && start + |digits| <= |s|
    requires negative == (SkipSpace(s, 0) < |s| && s[SkipSpace(s, 0)] == '-')
    requires |digits| > 0 && DigitRun(s, start) == |digits| && s[start..start + |digits|] == digits
    ensures ScanInt(s) == Some(if negative then -DigitsValue(digits) else DigitsValue(digits))
  {
    MagnitudeOf(s, start, digits);
  }

  lemma DigitsThenRest(s: string, start: nat, digits: string, rest: string)
    requires start <= |s| && s[start..] == digits + rest
    requires forall j | 0 <= j < |digits| :: IsDigit(digits[j])
    requires |rest| > 0 ==> !IsDigit(rest[0])
    ensures DigitRun(s, start) == |digits| && s[start..start + |digits|] == digits
  {
    var t := s[start..];
    assert forall j | 0 <= j < |digits| :: s[start + j] == t[j] == digits[j];
    assert |rest| > 0 ==> s[start + |digits|] == t[|digits|] == rest[0];
    DigitRunExact(s, start, |digits|);
    assert s[start..start + |digits|] == t[..|digits|];
  }

  lemma MagnitudeOf(s: string, start: nat, digits: string)
    requires |digits| > 0 && start + |digits| <= |s|
    requires DigitRun(s, start) == |digits| && s[start..start + |digits|] == digits
    ensures Magnitude(s, start) == Some(DigitsValue(digits))
  {
  }

  lemma DigitRunExact(s: string, i: nat, n: nat)
    requires i + n <= |s| && forall j | i <= j < i + n :: IsDigit(s[j])
    requires i + n < |s| ==> !IsDigit(s[i + n])
    ensures DigitRun(s, i) == n
    decreases n
  {
    if n > 0 {
      DigitRunExact(s, i + 1, n - 1);
    }
  }

  // ---------------------------------------------------------------------------
  // Config
  // ---------------------------------------------------------------------------

  /** `Config`: the bindings read from a configuration file. */
  class Config {
    var data: map<string, string>

    /** `Config()`: no bindings. */
    constructor ()
      ensures data == map[]
    {
      data := map[];
    }

    /** `load(filename)`, with the file given by its lines (None when it
        cannot be opened, which stops the program). Lines are read in order;
        each parsed line binds its name to its value, replacing an earlier
        binding of the same name. */
    method Load(file: Option<seq<string>>) returns (r: Outcome<()>)
      modifies this
      ensures file.None? ==> r == Abort(OpenFailed) && data == old(data)
      ensures file.Some? ==> r == Ok(()) && data == Bind(old(data), Entries(file.value))
    {
      if file.None? {
        return Abort(OpenFailed);
      }
      var lines := file.value;
      var i := 0;
      while i < |lines|
        invariant 0 <= i <= |lines| && data == Bind(old(data), Entries(lines[..i]))
      {
        BindStep(old(data), lines, i);
        var parsed := ParseLine(lines[i]);
        if parsed.Some? {
          var (name, value) := parsed.value;
          data := data[name := value];
        }
        i := i + 1;
      }
      assert lines[..|lines|] == lines;
      return Ok(());
    }

    /** `getString(name)`: the stored value as it is; a missing key stops the
        program. */
    function GetString(name: string): (r: Outcome<string>)
      reads this
      ensures r.Ok? <==> name in data
      ensures r.Ok? ==> r.value == data[name]
      ensures r.Abort? ==> r.fault == MissingKey(name)
    {
      if name in data then Ok(data[name]) else Abort(MissingKey(name))
    }

    /** `getInt(name)`: the integer the stored value begins with; a missing
        key, or a value that does not begin with an integer, stops the
        program. */
    function GetInt(name: string): (r: Outcome<int>)
      reads this
      ensures r.Ok? <==> name in data && ScanInt(data[name]).Some?
      ensures r.Ok? ==> r.value == ScanInt(data[name]).value
      ensures name !in data ==> r == Abort(MissingKey(name))
      ensures name in data && ScanInt(data[name]).None? ==> r == Abort(NotAnInt(data[name]))
    {
      if name !in data then Abort(MissingKey(name))
      else match ScanInt(data[name])
        case None => Abort(NotAnInt(data[name]))
        case Some(v) => Ok(v)
    }
  }
}
