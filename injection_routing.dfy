/**
 * Context injection for routes: the `<name_id>` placeholders of an endpoint, and the
 * rewriting of a view's keyword arguments that replaces each `name_id` by the object
 * looked up for it.
 */
module InjectionRouting {
  import opened Wrappers
  import opened Decimal

  // ---------------------------------------------------------------------------------
  // re.findall(r"<([a-z]+)_id>", endpoint)

  predicate IsLower(c: char)
  {
    'a' <= c <= 'z'
  }

  predicate IsName(n: string)
  {
    |n| > 0 && forall i :: 0 <= i < |n| ==> IsLower(n[i])
  }

  /** The length of the run of lower-case letters that s starts with. */
  function LetterRun(s: string): (n: nat)
    ensures n <= |s|
    ensures forall i :: 0 <= i < n ==> IsLower(s[i])
    ensures n < |s| ==> !IsLower(s[n])
  {
    if s != [] && IsLower(s[0]) then 1 + LetterRun(s[1..]) else 0
  }

  /**
   * The length of the name when s starts with a match of the pattern. [a-z]+ is greedy and
   * '_' is not a letter, so only the longest run of letters can be followed by "_id>".
   */
  function MatchAtStart(s: string): (r: Option<nat>)
    ensures r.Some? ==> 0 < r.value && r.value + 5 <= |s|
  {
    if s == [] || s[0] != '<' then None
    else
      var n := LetterRun(s[1..]);
      if n > 0 && n + 5 <= |s| && s[n + 1..n + 5] == "_id>" then Some(n) else None
  }

  /** The captured names of all non-overlapping matches, scanning from the left. */
  function FindAll(s: string): (r: seq<string>)
    ensures forall k :: 0 <= k < |r| ==> IsName(r[k])
  {
    if s == [] then []
    else
      match MatchAtStart(s)
      case Some(n) => [s[1..n + 1]] + FindAll(s[n + 5..])
      case None => FindAll(s[1..])
  }

  /** identify_possible_endpoint_objects. */
  function IdentifyPossibleEndpointObjects(endpoint: string): seq<string>
  {
    FindAll(endpoint)
  }

  /** Text without '<' holds no placeholder, and only shifts later ones. */
  lemma {:induction false} FindAllSkipsText(a: string, b: string)
    requires forall i :: 0 <= i < |a| ==> a[i] != '<'
    ensures FindAll(a + b) == FindAll(b)
  {
    if a != [] {
      assert (a + b)[1..] == a[1..] + b;
      FindAllSkipsText(a[1..], b);
    } else {
      assert a + b == b;
    }
  }

  /** A placeholder `<name_id>` with a lower-case name is captured as that name. */
  lemma FindAllPlaceholder(name: string, rest: string)
    requires IsName(name)
    ensures FindAll("<" + name + "_id>" + rest) == [name] + FindAll(rest)
  {
    var s := "<" + name + "_id>" + rest;
    var n := |name|;
    assert s[1..] == name + "_id>" + rest;
    LetterRunOf(name, "_id>" + rest);
    assert s[n + 1..n + 5] == "_id>";
    assert s[1..n + 1] == name;
    assert s[n + 5..] == rest;
  }

  /** The letter run of a name followed by a non-letter is the name. */
  lemma {:induction false} LetterRunOf(name: string, rest: string)
    requires IsName(name) && rest != [] && !IsLower(rest[0])
    ensures LetterRun(name + rest) == |name|
  {
    if |name| > 1 {
      assert (name + rest)[1..] == name[1..] + rest;
      LetterRunOf(name[1..], rest);
    } else {
      assert (name + rest)[1..] == rest;
    }
  }

  /** lits[0] <names[0]_id> lits[1] ... <names[n-1]_id> lits[n]. */
  function Render(lits: seq<string>, names: seq<string>): string
    requires |lits| == |names| + 1
  {
    if names == [] then lits[0]
    else lits[0] + ("<" + names[0] + "_id>" + Render(lits[1..], names[1..]))
  }

  /**
   * An endpoint made of placeholders with lower-case names between pieces of text without
   * '<' yields exactly those names, left to right.
   */
  lemma {:induction false} FindAllRender(lits: seq<string>, names: seq<string>)
    requires |lits| == |names| + 1
    requires forall k :: 0 <= k < |names| ==> IsName(names[k])
    requires forall k, i :: 0 <= k < |lits| && 0 <= i < |lits[k]| ==> lits[k][i] != '<'
    ensures FindAll(Render(lits, names)) == names
  {
    if names == [] {
      FindAllSkipsText(lits[0], []);
      assert lits[0] + [] == lits[0];
    } else {
      var tail := Render(lits[1..], names[1..]);
      FindAllRender(lits[1..], names[1..]);
      FindAllPlaceholder(names[0], tail);
      FindAllSkipsText(lits[0], "<" + names[0] + "_id>" + tail);
    }
  }

  /** '/test/<user_id>' yields ['user']. */
  lemma UserEndpoint()
    ensures IdentifyPossibleEndpointObjects("/test/<user_id>") == ["user"]
  {
    FindAllRender(["/test/", ""], ["user"]);
    assert Render(["/test/", ""], ["user"]) == "/test/<user_id>";
  }

  /** Text without '<' yields nothing. */
  lemma {:induction false} FindAllNoPlaceholder(s: string)
    requires forall i :: 0 <= i < |s| ==> s[i] != '<'
    ensures FindAll(s) == []
  {
    FindAllSkipsText(s, []);
    assert s + [] == s;
  }

  /** A character that can appear in a Python identifier (ASCII). */
  predicate IsIdentChar(c: char)
  {
    IsLower(c) || 'A' <= c <= 'Z' || '0' <= c <= '9' || c == '_'
  }

  /**
   * A placeholder whose name holds a digit, an upper-case letter or '_' is not captured,
   * and is skipped as plain text: the letters before the offending character are not
   * followed by "_id>".
   */
  lemma FindAllRejectsName(name: string, rest: string)
    requires |name| > 0 && forall i :: 0 <= i < |name| ==> IsIdentChar(name[i])
    requires exists i :: 0 <= i < |name| && !IsLower(name[i])
    ensures FindAll("<" + name + "_id>" + rest) == FindAll(rest)
  {
    var s := "<" + name + "_id>" + rest;
    var t := name + "_id>";
    assert s[1..] == t + rest;
    var n := LetterRun(s[1..]);
    var i :| 0 <= i < |name| && !IsLower(name[i]);
    assert s[1..][i] == name[i];
    assert n <= i;
    if n > 0 && n + 5 <= |s| {
      if n + 3 < |name| {
        assert s[n + 4] == name[n + 3];
      } else {
        assert s[n + 4] == t[n + 3];
      }
      assert s[n + 1..n + 5][3] != '>';
    }
    assert MatchAtStart(s).None?;
    FindAllSkipsText(t, rest);
  }

  // ---------------------------------------------------------------------------------
  // The wrapper's rewriting of the keyword arguments

  /** get_injection_type: the type hint of the parameter called name, if it has one. */
  function GetInjectionType(typeHints: map<string, string>, name: string): (r: Option<string>)
    ensures r.Some? <==> name in typeHints
    ensures r.Some? ==> r.value == typeHints[name]
  {
    if name in typeHints then Some(typeHints[name]) else None
  }

  /** An object session.get returns: its class name and primary key. */
  datatype Record = Record(kind: string, id: int)

  /** A keyword argument: the text the URL carried, or an injected object. */
  datatype Arg = Text(s: string) | Object(r: Record)

  /** The rows session.get(type, id) finds, by class name and primary key. */
  type Store = map<(string, int), Record>

  /** The ASCII characters int() skips around its numeral: \t \n \v \f \r, \x1c to \x1f and space. */
  predicate IsSpace(c: char)
  {
    9 <= c as int <= 13 || 28 <= c as int <= 32
  }

  /** t without its leading whitespace. */
  function StripLeft(t: string): (r: string)
    ensures |r| <= |t| && r == t[|t| - |r|..]
    ensures r == [] || !IsSpace(r[0])
    ensures forall i :: 0 <= i < |t| - |r| ==> IsSpace(t[i])
  {
    if |t| > 0 && IsSpace(t[0]) then StripLeft(t[1..]) else t
  }

  /** t without its trailing whitespace. */
  function StripRight(t: string): (r: string)
    ensures |r| <= |t| && r == t[..|r|]
    ensures r == [] || !IsSpace(r[|r| - 1])
    ensures forall i :: |r| <= i < |t| ==> IsSpace(t[i])
  {
    if |t| > 0 && IsSpace(t[|t| - 1]) then StripRight(t[..|t| - 1]) else t
  }

  function Strip(t: string): string
  {
    StripRight(StripLeft(t))
  }

  /** Decimal digits with single underscores between them: the digit groups int() accepts. */
  predicate Numeral(s: string)
  {
    && |s| > 0 && IsDigit(s[0]) && IsDigit(s[|s| - 1])
    && (forall i :: 0 <= i < |s| ==> IsDigit(s[i]) || s[i] == '_')
    && (forall i :: 0 <= i < |s| - 1 ==> !DoubleUnderscore(s, i))
  }

  predicate DoubleUnderscore(s: string, i: int)
    requires 0 <= i < |s| - 1
  {
    s[i] == '_' && s[i + 1] == '_'
  }

  /** The digits of s, in order, with its underscores dropped. */
  function DropUnderscores(s: string): (r: string)
    ensures |r| <= |s|
    ensures (forall i :: 0 <= i < |s| ==> IsDigit(s[i]) || s[i] == '_') ==> forall i :: 0 <= i < |r| ==> IsDigit(r[i])
    ensures (forall i :: 0 <= i < |s| ==> IsDigit(s[i])) ==> r == s
  {
    if s == [] then []
    else
      var p := s[..|s| - 1];
      assert s == p + [s[|s| - 1]];
      DropUnderscores(p) + (if s[|s| - 1] == '_' then [] else [s[|s| - 1]])
  }

  /** The number a numeral denotes. */
  function NumeralValue(s: string): nat
    requires Numeral(s)
  {
    DigitsValue(DropUnderscores(s))
  }

  /** A numeral after an optional sign. */
  predicate SignedNumeral(u: string)
  {
    Numeral(u) || (|u| > 1 && (u[0] == '-' || u[0] == '+') && Numeral(u[1..]))
  }

  /** int() reading digit groups, from the last digit back; None where it raises ValueError. */
  function ReadNumeral(s: string): Option<nat>
    decreases |s|
  {
    if |s| == 0 || !IsDigit(s[|s| - 1]) then None
    else
      var d: nat := s[|s| - 1] as int - '0' as int;
      if |s| == 1 then Some(d)
      else
        match ReadNumeral(if s[|s| - 2] == '_' then s[..|s| - 2] else s[..|s| - 1])
        case None => None
        case Some(v) => Some(10 * v + d)
  }

  /** The text after an optional leading sign. */
  function Unsigned(u: string): string
  {
    if |u| > 0 && (u[0] == '-' || u[0] == '+') then u[1..] else u
  }

  /**
   * The interpreter's limit on integer string conversion: int() raises ValueError on more
   * than MaxStrDigits digits, underscores not counted.
   */
  predicate WithinDigitLimit(u: string)
  {
    |DropUnderscores(Unsigned(u))| <= MaxStrDigits
  }

  /** An optional sign, then digit groups, of at most MaxStrDigits digits. */
  function ReadSigned(u: string): Option<int>
  {
    if !WithinDigitLimit(u) then None
    else if |u| > 0 && u[0] == '-' then
      match ReadNumeral(u[1..])
      case None => None
      case Some(v) => Some(-(v as int))
    else if |u| > 0 && u[0] == '+' then
      match ReadNumeral(u[1..])
      case None => None
      case Some(v) => Some(v as int)
    else
      match ReadNumeral(u)
      case None => None
      case Some(v) => Some(v as int)
  }

  /** int(text) in base 10: whitespace on either side is skipped, then ReadSigned reads the rest. */
  function ParseInt(t: string): Option<int>
    decreases |t|
  {
    if |t| > 0 && IsSpace(t[0]) then ParseInt(t[1..])
    else if |t| > 0 && IsSpace(t[|t| - 1]) then ParseInt(t[..|t| - 1])
    else ReadSigned(t)
  }

  /** Where the last character is a digit, the one before it decides how Numeral goes on. */
  lemma NumeralStep(s: string)
    requires |s| >= 2 && IsDigit(s[|s| - 1])
    ensures s[|s| - 2] == '_' ==> (Numeral(s) <==> Numeral(s[..|s| - 2]))
    ensures IsDigit(s[|s| - 2]) ==> (Numeral(s) <==> Numeral(s[..|s| - 1]))
    ensures !IsDigit(s[|s| - 2]) && s[|s| - 2] != '_' ==> !Numeral(s)
  {
    var n := |s|;
    var p := s[..n - 1];
    if s[n - 2] == '_' {
      var q := s[..n - 2];
      if Numeral(s) {
        assert !DoubleUnderscore(s, n - 3);
        forall i | 0 <= i < |q| - 1
          ensures !DoubleUnderscore(q, i)
        {
          assert !DoubleUnderscore(s, i);
        }
      }
      if Numeral(q) {
        forall i | 0 <= i < n - 1
          ensures !DoubleUnderscore(s, i)
        {
          if i < n - 3 {
            assert !DoubleUnderscore(q, i);
          }
        }
      }
    } else if IsDigit(s[n - 2]) {
      if Numeral(s) {
        forall i | 0 <= i < |p| - 1
          ensures !DoubleUnderscore(p, i)
        {
          assert !DoubleUnderscore(s, i);
        }
      }
      if Numeral(p) {
        forall i | 0 <= i < n - 1
          ensures !DoubleUnderscore(s, i)
        {
          if i < n - 2 {
            assert !DoubleUnderscore(p, i);
          }
        }
      }
    }
  }

  /** Digit groups read back exactly the numeral grammar ... */
  lemma {:induction false} ReadNumeralAccepts(s: string)
    ensures ReadNumeral(s).Some? <==> Numeral(s)
    decreases |s|
  {
    var n := |s|;
    if n >= 2 && IsDigit(s[n - 1]) {
      NumeralStep(s);
      ReadNumeralAccepts(if s[n - 2] == '_' then s[..n - 2] else s[..n - 1]);
    }
  }

  /** ... and the value of its digits. */
  lemma {:induction false} ReadNumeralValue(s: string)
    requires Numeral(s)
    ensures ReadNumeral(s) == Some(NumeralValue(s))
    decreases |s|
  {
    var n := |s|;
    if n == 1 {
      NumeralSingle(s);
    } else {
      NumeralStep(s);
      var rest := if s[n - 2] == '_' then s[..n - 2] else s[..n - 1];
      ReadNumeralValue(rest);
      NumeralLast(s, rest);
      assert ReadNumeral(s) == Some(10 * NumeralValue(rest) + (s[n - 1] as int - '0' as int));
    }
  }

  /** A one-digit numeral is worth its digit. */
  lemma NumeralSingle(s: string)
    requires |s| == 1 && Numeral(s)
    ensures ReadNumeral(s) == Some(NumeralValue(s))
  {
    assert DropUnderscores(s) == s;
    assert s[..0] == [];
    assert DigitsValue(s) == s[0] as int - '0' as int;
  }

  /** The value of a numeral of two or more characters, from the numeral before its last digit. */
  lemma NumeralLast(s: string, rest: string)
    requires Numeral(s) && |s| >= 2
    requires rest == if s[|s| - 2] == '_' then s[..|s| - 2] else s[..|s| - 1]
    requires Numeral(rest)
    ensures NumeralValue(s) == 10 * NumeralValue(rest) + (s[|s| - 1] as int - '0' as int)
  {
    var n := |s|;
    var p := s[..n - 1];
    var d := DropUnderscores(s);
    assert d == DropUnderscores(p) + [s[n - 1]];
    if s[n - 2] == '_' {
      assert p[..|p| - 1] == rest;
      assert DropUnderscores(p) == DropUnderscores(rest);
    }
    assert d[..|d| - 1] == DropUnderscores(rest);
  }

  /** Skipping the whitespace one character at a time ends at Strip. */
  lemma {:induction false} ParseIntStrip(t: string)
    ensures ParseInt(t) == ReadSigned(Strip(t))
    decreases |t|
  {
    if |t| > 0 && IsSpace(t[0]) {
      ParseIntStrip(t[1..]);
      assert StripLeft(t) == StripLeft(t[1..]);
    } else if |t| > 0 && IsSpace(t[|t| - 1]) {
      var p := t[..|t| - 1];
      ParseIntStrip(p);
      assert StripLeft(t) == t;
      assert StripLeft(p) == p;
    } else {
      assert StripLeft(t) == t;
    }
  }

  /** ReadSigned accepts exactly an optionally signed numeral, and gives its value, negated after '-'. */
  lemma ReadSignedSpec(u: string)
    ensures ReadSigned(u).Some? <==> SignedNumeral(u) && WithinDigitLimit(u)
    ensures Numeral(u) && WithinDigitLimit(u) ==> ReadSigned(u) == Some(NumeralValue(u))
    ensures |u| > 1 && u[0] == '-' && Numeral(u[1..]) && WithinDigitLimit(u) ==> ReadSigned(u) == Some(-(NumeralValue(u[1..]) as int))
    ensures |u| > 1 && u[0] == '+' && Numeral(u[1..]) && WithinDigitLimit(u) ==> ReadSigned(u) == Some(NumeralValue(u[1..]))
  {
    if |u| > 0 && (u[0] == '-' || u[0] == '+') {
      assert !Numeral(u);
      ReadNumeralAccepts(u[1..]);
      if Numeral(u[1..]) {
        ReadNumeralValue(u[1..]);
      }
    } else {
      ReadNumeralAccepts(u);
      if Numeral(u) {
        ReadNumeralValue(u);
      }
    }
  }

  /**
   * int() accepts exactly an optionally signed numeral of at most MaxStrDigits digits between
   * whitespace, and gives the number its digits denote, negated after '-'.
   */
  lemma ParseIntSpec(t: string)
    ensures ParseInt(t).Some? <==> SignedNumeral(Strip(t)) && WithinDigitLimit(Strip(t))
    ensures Numeral(Strip(t)) && WithinDigitLimit(Strip(t)) ==> ParseInt(t) == Some(NumeralValue(Strip(t)))
    ensures var u := Strip(t);
      |u| > 1 && u[0] == '-' && Numeral(u[1..]) && WithinDigitLimit(u) ==> ParseInt(t) == Some(-(NumeralValue(u[1..]) as int))
    ensures var u := Strip(t);
      |u| > 1 && u[0] == '+' && Numeral(u[1..]) && WithinDigitLimit(u) ==> ParseInt(t) == Some(NumeralValue(u[1..]))
  {
    ParseIntStrip(t);
    ReadSignedSpec(Strip(t));
  }

  /** Digits alone read as the number they denote. */
  lemma {:induction false} ReadDigits(s: string)
    requires AllDigits(s)
    ensures ReadNumeral(s) == Some(DigitsValue(s))
    decreases |s|
  {
    if |s| > 1 {
      ReadDigits(s[..|s| - 1]);
    }
  }

  /**
   * Plain digits, with or without a sign, read as the number they denote when there are at
   * most MaxStrDigits of them, and raise when there are more.
   */
  lemma ParseIntDigits(t: string)
    ensures AllDigits(t) && |t| <= MaxStrDigits ==> ParseInt(t) == Some(DigitsValue(t))
    ensures |t| > 1 && t[0] == '-' && AllDigits(t[1..]) && |t| - 1 <= MaxStrDigits ==> ParseInt(t) == Some(-(DigitsValue(t[1..]) as int))
    ensures |t| > 1 && t[0] == '+' && AllDigits(t[1..]) && |t| - 1 <= MaxStrDigits ==> ParseInt(t) == Some(DigitsValue(t[1..]))
    ensures AllDigits(Unsigned(t)) && |Unsigned(t)| > MaxStrDigits ==> ParseInt(t) == None
  {
    if |t| > 0 && (t[0] == '-' || t[0] == '+') {
      assert Unsigned(t) == t[1..];
      assert !IsDigit(t[0]);
      if AllDigits(t[1..]) {
        ParseSignedDigits(t);
      }
    } else {
      assert Unsigned(t) == t;
      if AllDigits(t) {
        ParsePlainDigits(t);
      }
    }
  }

  /** Digits after a sign: read, negated after '-', or refused past the limit. */
  lemma ParseSignedDigits(t: string)
    requires |t| > 1 && (t[0] == '-' || t[0] == '+') && AllDigits(t[1..])
    ensures |t| - 1 > MaxStrDigits ==> ParseInt(t) == None
    ensures |t| - 1 <= MaxStrDigits && t[0] == '-' ==> ParseInt(t) == Some(-(DigitsValue(t[1..]) as int))
    ensures |t| - 1 <= MaxStrDigits && t[0] == '+' ==> ParseInt(t) == Some(DigitsValue(t[1..]))
  {
    var b := t[1..];
    assert Unsigned(t) == b;
    assert t[|t| - 1] == b[|b| - 1];
    NoSpaceAtEnds(t);
    ReadDigits(b);
  }

  /** Digits alone: read, or refused past the limit. */
  lemma ParsePlainDigits(t: string)
    requires AllDigits(t)
    ensures |t| > MaxStrDigits ==> ParseInt(t) == None
    ensures |t| <= MaxStrDigits ==> ParseInt(t) == Some(DigitsValue(t))
  {
    assert Unsigned(t) == t;
    NoSpaceAtEnds(t);
    ReadDigits(t);
  }

  /** Text with no whitespace at either end is read as it stands. */
  lemma NoSpaceAtEnds(t: string)
    requires |t| > 0 && !IsSpace(t[0]) && !IsSpace(t[|t| - 1])
    ensures ParseInt(t) == ReadSigned(t)
  {
  }

  /** Whitespace around the numeral and underscores between its digits are accepted; doubled or trailing underscores are not. */
  lemma ParseIntExamples()
    ensures ParseInt(" 7\n") == Some(7)
    ensures ParseInt("1_0") == Some(10)
    ensures ParseInt("-0_3") == Some(-3)
    ensures ParseInt("1__0") == None && ParseInt("1_") == None && ParseInt("") == None && ParseInt("7a") == None
  {
    SpacesExample();
    UnderscoreExample();
    NegativeExample();
    RefusedExamples();
  }

  /** " 7\n": a space before and a newline after the digit. */
  lemma SpacesExample()
    ensures ParseInt(" 7\n") == Some(7)
  {
    assert ParseInt(" 7\n") == ParseInt("7\n") == ParseInt("7");
    ParsePlainDigits("7");
  }

  /** "1_0": the digit groups "1" and "0". */
  lemma UnderscoreExample()
    ensures ParseInt("1_0") == Some(10)
  {
    var u := "1_0";
    NoSpaceAtEnds(u);
    assert Unsigned(u) == u;
    assert u[..2] == "1_" && u[..1] == "1";
    assert DropUnderscores(u) == "10";
  }

  /** A doubled or trailing underscore, no digits at all, or a letter after the digits. */
  lemma RefusedExamples()
    ensures ParseInt("1__0") == None && ParseInt("1_") == None && ParseInt("") == None && ParseInt("7a") == None
  {
    var u := "1__0";
    NoSpaceAtEnds(u);
    assert u[..2] == "1_";
    assert ReadNumeral(u) == None;
  }

  /** "-0_3": the sign, then the digit groups "0" and "3". */
  lemma NegativeExample()
    ensures ParseInt("-0_3") == Some(-3)
  {
    var u := "-0_3";
    NoSpaceAtEnds(u);
    assert Unsigned(u) == u[1..] == "0_3";
    assert "0_3"[..2] == "0_" && "0_3"[..1] == "0";
    assert DropUnderscores("0_3") == "03";
    assert ReadNumeral("0_3") == Some(3);
  }

  /** A route argument of 4301 digits is past the limit: int() raises ValueError. */
  lemma ParseIntTooLong()
    ensures ParseInt(seq(MaxStrDigits + 1, _ => '1')) == None
  {
    var t := seq(MaxStrDigits + 1, _ => '1');
    assert AllDigits(t);
    ParsePlainDigits(t);
  }

  /** int(str(i)) == i, for every i whose str() is within the digit limit (str() raises beyond it). */
  lemma ParseIntRoundTrip(i: int)
    requires |Unsigned(IntToString(i))| <= MaxStrDigits
    ensures ParseInt(IntToString(i)) == Some(i)
  {
    var r := IntToString(i);
    if i < 0 {
      assert Unsigned(r) == r[1..];
      ParseSignedDigits(r);
    } else {
      assert IsDigit(r[0]);
      assert Unsigned(r) == r;
      ParsePlainDigits(r);
    }
  }

  /** abort(404), or the KeyError / ValueError that `int(kwargs[name + "_id"])` raises. */
  datatype Abort = NotFound404 | MissingKwarg(key: string) | InvalidLiteral(key: string)

  /** How the wrapped call ends: fn called with these keyword arguments, or an abort. */
  datatype Outcome = Call(kwargs: map<string, Arg>) | Aborted(reason: Abort)

  /** The loop's state: injection_kwargs and what is left of kwargs. */
  datatype Injection = Injection(injected: map<string, Record>, kwargs: map<string, string>)

  /** One iteration for one extracted name. */
  function InjectOne(typeHints: map<string, string>, store: Store, st: Injection, name: string): Result<Injection, Abort>
  {
    match GetInjectionType(typeHints, name)
    case None => Ok(st)
    case Some(t) =>
      var key := name + "_id";
      if key !in st.kwargs then Err(MissingKwarg(key))
      else
        match ParseInt(st.kwargs[key])
        case None => Err(InvalidLiteral(key))
        case Some(id) =>
          if (t, id) !in store then Err(NotFound404)
          else Ok(Injection(st.injected[name := store[(t, id)]], st.kwargs - {key}))
  }

  /** The for loop over the first k extracted names, starting from state st. */
  function InjectAll(typeHints: map<string, string>, store: Store, names: seq<string>, k: nat, st: Injection): Result<Injection, Abort>
    requires k <= |names|
  {
    if k == 0 then Ok(st)
    else
      match InjectAll(typeHints, store, names, k - 1, st)
      case Err(o) => Err(o)
      case Ok(s1) => InjectOne(typeHints, store, s1, names[k - 1])
  }

  /** {**injection_kwargs, **kwargs}: where both have a key, the remaining keyword argument wins. */
  function Merge(st: Injection): (m: map<string, Arg>)
    ensures m.Keys == st.injected.Keys + st.kwargs.Keys
    ensures forall k :: k in st.kwargs ==> m[k] == Text(st.kwargs[k])
    ensures forall k :: k in st.injected && k !in st.kwargs ==> m[k] == Object(st.injected[k])
  {
    (map n | n in st.injected :: Object(st.injected[n])) + (map k | k in st.kwargs :: Text(st.kwargs[k]))
  }

  /** What the wrapper of a view routed at endpoint does with the keyword arguments kwargs. */
  function WrapperOutcome(endpoint: string, typeHints: map<string, string>, store: Store, kwargs: map<string, string>): Outcome
  {
    var names := IdentifyPossibleEndpointObjects(endpoint);
    match InjectAll(typeHints, store, names, |names|, Injection(map[], kwargs))
    case Err(a) => Aborted(a)
    case Ok(st) => Call(Merge(st))
  }

  /** The wrapper: look up each hinted name's object, drop its `_id` argument, then call. */
  method Wrapper(endpoint: string, typeHints: map<string, string>, store: Store, kwargs: map<string, string>) returns (o: Outcome)
    ensures o == WrapperOutcome(endpoint, typeHints, store, kwargs)
  {
    var injected: map<string, Record> := map[];
    var rest := kwargs;
    var names := IdentifyPossibleEndpointObjects(endpoint);
    var i := 0;
    while i < |names|
      invariant 0 <= i <= |names|
      invariant InjectAll(typeHints, store, names, i, Injection(map[], kwargs)) == Ok(Injection(injected, rest))
    {
      var name := names[i];
      var t := GetInjectionType(typeHints, name);
      if t.None? {
        i := i + 1;
        continue;
      }
      var key := name + "_id";
      if key !in rest {
        o := Aborted(MissingKwarg(key));
        InjectAllFailureSticks(typeHints, store, names, i + 1, |names|, Injection(map[], kwargs));
        return;
      }
      var id := ParseInt(rest[key]);
      if id.None? {
        o := Aborted(InvalidLiteral(key));
        InjectAllFailureSticks(typeHints, store, names, i + 1, |names|, Injection(map[], kwargs));
        return;
      }
      if (t.value, id.value) !in store {
        o := Aborted(NotFound404);
        InjectAllFailureSticks(typeHints, store, names, i + 1, |names|, Injection(map[], kwargs));
        return;
      }
      injected := injected[name := store[(t.value, id.value)]];
      rest := rest - {key};
      i := i + 1;
    }
    o := Call(Merge(Injection(injected, rest)));
  }

  /** Once an iteration has aborted, the loop's outcome is that abort. */
  lemma {:induction false} InjectAllFailureSticks(typeHints: map<string, string>, store: Store, names: seq<string>, k: nat, m: nat, st: Injection)
    requires k <= m <= |names|
    requires InjectAll(typeHints, store, names, k, st).Err?
    ensures InjectAll(typeHints, store, names, m, st) == InjectAll(typeHints, store, names, k, st)
  {
    if m > k {
      var j: nat := m - 1;
      InjectAllFailureSticks(typeHints, store, names, k, j, st);
    }
  }

  /** The `_id` arguments the first k iterations delete. */
  function Removed(typeHints: map<string, string>, names: seq<string>, k: nat): set<string>
    requires k <= |names|
  {
    set j | 0 <= j < k && names[j] in typeHints :: names[j] + "_id"
  }

  /** The names the first k iterations inject. */
  function InjectedNames(typeHints: map<string, string>, names: seq<string>, k: nat): set<string>
    requires k <= |names|
  {
    set j | 0 <= j < k && names[j] in typeHints :: names[j]
  }

  /** The object that name's `_id` argument resolves to under kwargs, if it resolves at all. */
  ghost predicate Resolvable(typeHints: map<string, string>, store: Store, kwargs: map<string, string>, name: string)
  {
    name in typeHints && name + "_id" in kwargs && ParseInt(kwargs[name + "_id"]).Some?
    && (typeHints[name], ParseInt(kwargs[name + "_id"]).value) in store
  }

  function Resolve(typeHints: map<string, string>, store: Store, kwargs: map<string, string>, name: string): Record
    requires Resolvable(typeHints, store, kwargs, name)
  {
    store[(typeHints[name], ParseInt(kwargs[name + "_id"]).value)]
  }

  /** No hinted name is extracted twice among the first k. */
  ghost predicate HintedDistinct(typeHints: map<string, string>, names: seq<string>, k: nat)
    requires k <= |names|
  {
    forall j, j' :: 0 <= j < j' < k && names[j] in typeHints ==> names[j] != names[j']
  }

  lemma SuffixCancel(a: string, b: string)
    requires a + "_id" == b + "_id"
    ensures a == b
  {
    assert a == (a + "_id")[..|a|];
    assert b == (b + "_id")[..|b|];
  }

  /**
   * After k iterations that all went through: the hinted names' `_id` arguments are gone and
   * nothing else is, each hinted name holds the object its argument resolved to, and no
   * hinted name came twice (its argument would already have been deleted).
   */
  lemma {:induction false} InjectAllSuccess(typeHints: map<string, string>, store: Store, names: seq<string>, k: nat, kwargs: map<string, string>)
    requires k <= |names|
    requires InjectAll(typeHints, store, names, k, Injection(map[], kwargs)).Ok?
    ensures var st := InjectAll(typeHints, store, names, k, Injection(map[], kwargs)).value;
      && st.kwargs == kwargs - Removed(typeHints, names, k)
      && st.injected.Keys == InjectedNames(typeHints, names, k)
      && HintedDistinct(typeHints, names, k)
      && forall j :: 0 <= j < k && names[j] in typeHints ==>
           Resolvable(typeHints, store, kwargs, names[j]) && st.injected[names[j]] == Resolve(typeHints, store, kwargs, names[j])
  {
    if k > 0 {
      var j: nat := k - 1;
      var st0 := Injection(map[], kwargs);
      var n := names[j];
      InjectAllLast(typeHints, store, names, k, st0);
      InjectAllSuccess(typeHints, store, names, j, kwargs);
      var s1 := InjectAll(typeHints, store, names, j, st0).value;
      var st := InjectAll(typeHints, store, names, k, st0).value;
      InjectOneOk(typeHints, store, s1, n);
      RemovedStep(typeHints, names, k);
      InjectedNamesStep(typeHints, names, k);
      if n in typeHints {
        forall i | 0 <= i < j && names[i] in typeHints
          ensures names[i] != n
        {
          assert names[i] + "_id" in Removed(typeHints, names, j);
        }
        MinusTwice(kwargs, Removed(typeHints, names, j), {n + "_id"});
        assert st.injected.Keys == s1.injected.Keys + {n};
      } else {
        assert Removed(typeHints, names, k) == Removed(typeHints, names, j);
        assert InjectedNames(typeHints, names, k) == InjectedNames(typeHints, names, j);
      }
      forall i | 0 <= i < k && names[i] in typeHints
        ensures Resolvable(typeHints, store, kwargs, names[i]) && st.injected[names[i]] == Resolve(typeHints, store, kwargs, names[i])
      {
        if i < j {
          assert names[i] != n || n !in typeHints;
        }
      }
    }
  }

  lemma MinusTwice(m: map<string, string>, a: set<string>, b: set<string>)
    ensures m - a - b == m - (a + b)
  {
  }

  /** The last of k iterations, after k - 1 that went through. */
  lemma InjectAllLast(typeHints: map<string, string>, store: Store, names: seq<string>, k: nat, st: Injection)
    requires 0 < k <= |names|
    requires InjectAll(typeHints, store, names, k, st).Ok?
    ensures InjectAll(typeHints, store, names, k - 1, st).Ok?
    ensures InjectOne(typeHints, store, InjectAll(typeHints, store, names, k - 1, st).value, names[k - 1])
      == InjectAll(typeHints, store, names, k, st)
  {
  }

  /**
   * An iteration that goes through: an unhinted name changes nothing; a hinted one finds its
   * `_id` argument, parses it, finds the object, records it and deletes the argument.
   */
  lemma InjectOneOk(typeHints: map<string, string>, store: Store, st: Injection, name: string)
    requires InjectOne(typeHints, store, st, name).Ok?
    ensures name !in typeHints ==> InjectOne(typeHints, store, st, name).value == st
    ensures name in typeHints ==>
      var key := name + "_id";
      && key in st.kwargs && ParseInt(st.kwargs[key]).Some?
      && (typeHints[name], ParseInt(st.kwargs[key]).value) in store
      && InjectOne(typeHints, store, st, name).value
        == Injection(st.injected[name := store[(typeHints[name], ParseInt(st.kwargs[key]).value)]], st.kwargs - {key})
  {
  }

  lemma RemovedStep(typeHints: map<string, string>, names: seq<string>, k: nat)
    requires 0 < k <= |names|
    ensures Removed(typeHints, names, k) ==
      Removed(typeHints, names, k - 1) + (if names[k - 1] in typeHints then {names[k - 1] + "_id"} else {})
  {
  }

  lemma InjectedNamesStep(typeHints: map<string, string>, names: seq<string>, k: nat)
    requires 0 < k <= |names|
    ensures InjectedNames(typeHints, names, k) ==
      InjectedNames(typeHints, names, k - 1) + (if names[k - 1] in typeHints then {names[k - 1]} else {})
  {
  }

  /** Conversely, when every hinted name resolves and none comes twice, no iteration aborts. */
  lemma {:induction false} InjectAllComplete(typeHints: map<string, string>, store: Store, names: seq<string>, k: nat, kwargs: map<string, string>)
    requires k <= |names|
    requires forall j :: 0 <= j < k && names[j] in typeHints ==> Resolvable(typeHints, store, kwargs, names[j])
    requires HintedDistinct(typeHints, names, k)
    ensures InjectAll(typeHints, store, names, k, Injection(map[], kwargs)).Ok?
  {
    if k > 0 {
      var j: nat := k - 1;
      var n := names[j];
      InjectAllComplete(typeHints, store, names, j, kwargs);
      InjectAllSuccess(typeHints, store, names, j, kwargs);
      if n in typeHints {
        var key := n + "_id";
        if key in Removed(typeHints, names, j) {
          var i :| 0 <= i < j && names[i] in typeHints && names[i] + "_id" == key;
          SuffixCancel(names[i], n);
          assert false;
        }
      }
    }
  }

  /** The view is called exactly when every hinted name resolves and none is extracted twice. */
  lemma WrapperCallsIff(endpoint: string, typeHints: map<string, string>, store: Store, kwargs: map<string, string>)
    ensures var names := IdentifyPossibleEndpointObjects(endpoint);
      WrapperOutcome(endpoint, typeHints, store, kwargs).Call? <==>
        (forall j :: 0 <= j < |names| && names[j] in typeHints ==> Resolvable(typeHints, store, kwargs, names[j]))
        && HintedDistinct(typeHints, names, |names|)
  {
    var names := IdentifyPossibleEndpointObjects(endpoint);
    var st0 := Injection(map[], kwargs);
    if InjectAll(typeHints, store, names, |names|, st0).Ok? {
      InjectAllSuccess(typeHints, store, names, |names|, kwargs);
    }
    if (forall j :: 0 <= j < |names| && names[j] in typeHints ==> Resolvable(typeHints, store, kwargs, names[j]))
      && HintedDistinct(typeHints, names, |names|) {
      InjectAllComplete(typeHints, store, names, |names|, kwargs);
    }
  }

  /**
   * What the view receives: each hinted name's `_id` argument is gone and, unless a keyword
   * argument of the same name overrides it, the name holds the object it resolved to; every
   * other keyword argument passes through unchanged; nothing else is added.
   */
  lemma WrapperCallArguments(endpoint: string, typeHints: map<string, string>, store: Store, kwargs: map<string, string>)
    requires WrapperOutcome(endpoint, typeHints, store, kwargs).Call?
    ensures var names := IdentifyPossibleEndpointObjects(endpoint);
      var m := WrapperOutcome(endpoint, typeHints, store, kwargs).kwargs;
      && (forall j :: 0 <= j < |names| && names[j] in typeHints ==>
            && names[j] + "_id" !in m
            && Resolvable(typeHints, store, kwargs, names[j])
            && (names[j] !in kwargs ==> names[j] in m && m[names[j]] == Object(Resolve(typeHints, store, kwargs, names[j]))))
      && (forall k :: k in kwargs && k !in Removed(typeHints, names, |names|) ==> k in m && m[k] == Text(kwargs[k]))
      && (forall k :: k in m ==> k in kwargs || k in InjectedNames(typeHints, names, |names|))
  {
    var names := IdentifyPossibleEndpointObjects(endpoint);
    InjectAllSuccess(typeHints, store, names, |names|, kwargs);
    var st := InjectAll(typeHints, store, names, |names|, Injection(map[], kwargs)).value;
    forall j | 0 <= j < |names| && names[j] in typeHints
      ensures names[j] + "_id" !in st.injected
    {
      NotAName(names[j]);
    }
  }

  /** Extracted names hold no '_', so no `<name>_id` is itself an extracted name. */
  lemma NotAName(n: string)
    ensures !IsName(n + "_id")
  {
    assert (n + "_id")[|n|] == '_';
  }

  /** The iteration that aborted a loop: every earlier one went through. */
  lemma {:induction false} InjectAllAbortStep(typeHints: map<string, string>, store: Store, names: seq<string>, k: nat, st: Injection)
    requires k <= |names|
    requires InjectAll(typeHints, store, names, k, st).Err?
    ensures exists j :: (0 <= j < k && InjectAll(typeHints, store, names, j, st).Ok?
      && InjectOne(typeHints, store, InjectAll(typeHints, store, names, j, st).value, names[j]) == InjectAll(typeHints, store, names, k, st))
  {
    var j: nat := k - 1;
    if InjectAll(typeHints, store, names, j, st).Err? {
      InjectAllAbortStep(typeHints, store, names, j, st);
    }
  }

  /**
   * abort(404) happens only for a hinted name whose `_id` argument is present and an integer
   * but names no stored object of the hinted class.
   */
  lemma WrapperNotFound(endpoint: string, typeHints: map<string, string>, store: Store, kwargs: map<string, string>)
    requires WrapperOutcome(endpoint, typeHints, store, kwargs) == Aborted(NotFound404)
    ensures var names := IdentifyPossibleEndpointObjects(endpoint);
      exists j :: 0 <= j < |names| && names[j] in typeHints && names[j] + "_id" in kwargs
        && ParseInt(kwargs[names[j] + "_id"]).Some?
        && (typeHints[names[j]], ParseInt(kwargs[names[j] + "_id"]).value) !in store
  {
    var names := IdentifyPossibleEndpointObjects(endpoint);
    var st0 := Injection(map[], kwargs);
    InjectAllAbortStep(typeHints, store, names, |names|, st0);
    var j :| 0 <= j < |names| && InjectAll(typeHints, store, names, j, st0).Ok?
      && InjectOne(typeHints, store, InjectAll(typeHints, store, names, j, st0).value, names[j]) == InjectAll(typeHints, store, names, |names|, st0);
    InjectAllSuccess(typeHints, store, names, j, kwargs);
  }

  /** Without a type hint for any extracted name, the view gets the keyword arguments as they came. */
  lemma {:induction false} NoHintsPassThrough(endpoint: string, typeHints: map<string, string>, store: Store, kwargs: map<string, string>)
    requires forall n :: n in IdentifyPossibleEndpointObjects(endpoint) ==> n !in typeHints
    ensures WrapperOutcome(endpoint, typeHints, store, kwargs) == Call(map k | k in kwargs :: Text(kwargs[k]))
  {
    var names := IdentifyPossibleEndpointObjects(endpoint);
    InjectAllUnhinted(typeHints, store, names, |names|, Injection(map[], kwargs));
  }

  lemma {:induction false} InjectAllUnhinted(typeHints: map<string, string>, store: Store, names: seq<string>, k: nat, st: Injection)
    requires k <= |names|
    requires forall j :: 0 <= j < k ==> names[j] !in typeHints
    ensures InjectAll(typeHints, store, names, k, st) == Ok(st)
  {
    if k > 0 {
      var j: nat := k - 1;
      InjectAllUnhinted(typeHints, store, names, j, st);
    }
  }

  /** '/test/<user_id>' with a hinted `user`: the stored user replaces `user_id`. */
  lemma UserInjected(store: Store)
    requires ("User", 7) in store
    ensures WrapperOutcome("/test/<user_id>", map["user" := "User"], store, map["user_id" := "7"])
      == Call(map["user" := Object(store[("User", 7)])])
  {
    UserEndpoint();
    FirstUserFound(store, ["user"]);
    MergeOneObject("user", store[("User", 7)]);
  }

  /** The first iteration over a hinted `user` whose `user_id` is "7" and stored. */
  lemma FirstUserFound(store: Store, names: seq<string>)
    requires ("User", 7) in store && |names| > 0 && names[0] == "user"
    ensures InjectAll(map["user" := "User"], store, names, 1, Injection(map[], map["user_id" := "7"]))
      == Ok(Injection(map["user" := store[("User", 7)]], map[]))
  {
    var kw := map["user_id" := "7"];
    SevenParses();
    assert "user" + "_id" == "user_id";
    assert kw - {"user_id"} == map[];
  }

  /** The first iteration over a hinted `user` whose `user_id` is "7" but not stored. */
  lemma FirstUserMissing(store: Store, names: seq<string>)
    requires ("User", 7) !in store && |names| > 0 && names[0] == "user"
    ensures InjectAll(map["user" := "User"], store, names, 1, Injection(map[], map["user_id" := "7"])) == Err(NotFound404)
  {
    SevenParses();
    assert "user" + "_id" == "user_id";
  }

  lemma MergeOneObject(name: string, r: Record)
    ensures Merge(Injection(map[name := r], map[])) == map[name := Object(r)]
  {
  }

  lemma SevenParses()
    ensures ParseInt("7") == Some(7)
  {
    assert AllDigits("7");
    assert "7"[..0] == [];
  }

  /** ... and with no such user the request aborts with 404. */
  lemma UserNotFound(store: Store)
    requires ("User", 7) !in store
    ensures WrapperOutcome("/test/<user_id>", map["user" := "User"], store, map["user_id" := "7"]) == Aborted(NotFound404)
  {
    UserEndpoint();
    FirstUserMissing(store, ["user"]);
  }

  /**
   * A placeholder repeated in one endpoint: the first occurrence deletes `user_id`, so the
   * second raises KeyError even though the user exists.
   */
  lemma RepeatedPlaceholder(store: Store)
    requires ("User", 7) in store
    ensures WrapperOutcome("/a/<user_id>/<user_id>", map["user" := "User"], store, map["user_id" := "7"])
      == Aborted(MissingKwarg("user_id"))
  {
    var names := ["user", "user"];
    RepeatedEndpoint();
    FirstUserFound(store, names);
    SecondUserMissing(store, names);
  }

  /** '/a/<user_id>/<user_id>' yields ['user', 'user']. */
  lemma RepeatedEndpoint()
    ensures IdentifyPossibleEndpointObjects("/a/<user_id>/<user_id>") == ["user", "user"]
  {
    FindAllRender(["/a/", "/", ""], ["user", "user"]);
    RepeatedRender();
  }

  lemma RepeatedRender()
    ensures Render(["/a/", "/", ""], ["user", "user"]) == "/a/<user_id>/<user_id>"
  {
    assert ["/a/", "/", ""][1..] == ["/", ""];
    assert ["user", "user"][1..] == ["user"];
    TailRender();
    Placeholder("user");
    assert "<user_id>" + "/<user_id>" == "<user_id>/<user_id>";
    assert "/a/" + "<user_id>/<user_id>" == "/a/<user_id>/<user_id>";
  }

  lemma Placeholder(n: string)
    requires n == "user"
    ensures "<" + n + "_id>" == "<user_id>"
  {
  }

  lemma TailRender()
    ensures Render(["/", ""], ["user"]) == "/<user_id>"
  {
    Placeholder("user");
    assert "<user_id>" + "" == "<user_id>";
  }

  /** After the first `user` has taken `user_id`, the second finds it gone. */
  lemma SecondUserMissing(store: Store, names: seq<string>)
    requires ("User", 7) in store && |names| > 1 && names[1] == "user"
    requires InjectAll(map["user" := "User"], store, names, 1, Injection(map[], map["user_id" := "7"]))
      == Ok(Injection(map["user" := store[("User", 7)]], map[]))
    ensures InjectAll(map["user" := "User"], store, names, 2, Injection(map[], map["user_id" := "7"])) == Err(MissingKwarg("user_id"))
  {
    assert "user" + "_id" == "user_id";
  }
}
