/** The texts that Python's json.dumps gives, as far as server/audit.py relies on them:
    a bar occurs in such a text only inside a quoted string. */
module JsonText {

  /** What json.dumps prints for a number. */
  predicate Numeric(s: string) {
    forall i | 0 <= i < |s| :: s[i] != '"' && s[i] != '|'
  }

  type Number = s: string | Numeric(s)

  /** A document; an object's entries are listed in the order of their keys. */
  datatype Json =
    | Null
    | Bool(value: bool)
    | Num(text: Number)
    | Str(chars: string)
    | Arr(items: seq<Json>)
    | Obj(entries: seq<(string, Json)>)

  function HexDigit(d: nat): (c: char)
    requires d < 16
    ensures '0' <= c <= '9' || 'a' <= c <= 'f'
  {
    if d < 10 then ('0' as int + d) as char else ('a' as int + (d - 10)) as char
  }

  function Hex4(n: nat): (s: string)
    requires n < 0x1_0000
    ensures forall i | 0 <= i < |s| :: s[i] != '"' && s[i] != '\\'
  {
    [HexDigit(n / 4096), HexDigit(n / 256 % 16), HexDigit(n / 16 % 16), HexDigit(n % 16)]
  }

  /** A character above the first plane is written as a surrogate pair. */
  function Surrogates(n: nat): string
    requires n < 0x10_0000
  {
    "\\u" + Hex4(0xD800 + n / 1024) + ("\\u" + Hex4(0xDC00 + n % 1024))
  }

  /** ensure_ascii: everything but printable ASCII is escaped. */
  function Escaped(c: char): string {
    if c == '"' then "\\\""
    else if c == '\\' then "\\\\"
    else if c == '\n' then "\\n"
    else if c == '\r' then "\\r"
    else if c == '\t' then "\\t"
    else if c as int == 8 then "\\b"
    else if c as int == 12 then "\\f"
    else if ' ' <= c <= '~' then [c]
    else if c as int < 0x1_0000 then "\\u" + Hex4(c as int)
    else Surrogates(c as int - 0x1_0000)
  }

  function Quoted(s: string): string {
    if s == "" then "" else Quoted(s[..|s| - 1]) + Escaped(s[|s| - 1])
  }

  function Dumps(j: Json): string
    decreases j, 1, 0
  {
    match j
    case Null => "null"
    case Bool(value) => if value then "true" else "false"
    case Num(text) => text
    case Str(chars) => "\"" + Quoted(chars) + "\""
    case Arr(items) => "[" + Items(j, |items|) + "]"
    case Obj(entries) => "{" + Entries(j, |entries|) + "}"
  }

  function Items(j: Json, n: nat): string
    requires j.Arr? && n <= |j.items|
    decreases j, 0, n
  {
    if n == 0 then ""
    else Items(j, n - 1) + (if n > 1 then ", " else "") + Dumps(j.items[n - 1])
  }

  function Entries(j: Json, n: nat): string
    requires j.Obj? && n <= |j.entries|
    decreases j, 0, n
  {
    if n == 0 then ""
    else Entries(j, n - 1) + (if n > 1 then ", " else "")
         + ("\"" + Quoted(j.entries[n - 1].0) + "\"" + ": ") + Dumps(j.entries[n - 1].1)
  }

  // ----- bars stay inside quotes -----

  datatype Mode = Outside | Inside | Escaping

  datatype Scanned = At(mode: Mode) | BarOutside

  function Next(m: Mode, c: char): Scanned {
    match m
    case Outside => if c == '|' then BarOutside else if c == '"' then At(Inside) else At(Outside)
    case Inside => if c == '\\' then At(Escaping) else if c == '"' then At(Outside) else At(Inside)
    case Escaping => At(Inside)
  }

  /** Reading a text up to the first bar outside quotes. */
  function Scan(m: Mode, s: string): Scanned
    decreases |s|
  {
    if s == "" then At(m)
    else
      var r := Next(m, s[0]);
      if r.At? then Scan(r.mode, s[1..]) else r
  }

  lemma {:induction false} ScanConcat(m: Mode, a: string, b: string)
    ensures Scan(m, a + b) == if Scan(m, a).At? then Scan(Scan(m, a).mode, b) else BarOutside
    decreases |a|
  {
    if a == "" {
      assert a + b == b;
    } else {
      assert (a + b)[0] == a[0] && (a + b)[1..] == a[1..] + b;
      var r := Next(m, a[0]);
      if r.At? {
        ScanConcat(r.mode, a[1..], b);
      }
    }
  }

  /** The text has no bar outside quotes and closes every quote it opens. */
  predicate Closed(s: string) {
    Scan(Outside, s) == At(Outside)
  }

  lemma ClosedConcat(a: string, b: string)
    requires Closed(a) && Closed(b)
    ensures Closed(a + b)
  {
    ScanConcat(Outside, a, b);
  }

  lemma {:induction false} NumericClosed(s: string)
    requires Numeric(s)
    ensures Closed(s)
  {
    if s != "" {
      NumericClosed(s[1..]);
    }
  }

  lemma {:induction false} LettersInside(s: string)
    requires forall i | 0 <= i < |s| :: s[i] != '"' && s[i] != '\\'
    ensures Scan(Inside, s) == At(Inside)
  {
    if s != "" {
      LettersInside(s[1..]);
    }
  }

  lemma HexInside(n: nat)
    requires n < 0x1_0000
    ensures Scan(Inside, "\\u" + Hex4(n)) == At(Inside)
  {
    PairInside('u');
    assert "\\u" == ['\\', 'u'];
    LettersInside(Hex4(n));
    ScanConcat(Inside, "\\u", Hex4(n));
  }

  lemma PairInside(c: char)
    ensures Scan(Inside, ['\\', c]) == At(Inside)
  {
    assert ['\\', c][1..] == [c];
    assert [c][1..] == "";
    assert Scan(Escaping, [c]) == At(Inside);
  }

  lemma SurrogatesInside(n: nat)
    requires n < 0x10_0000
    ensures Scan(Inside, Surrogates(n)) == At(Inside)
  {
    HexInside(0xD800 + n / 1024);
    HexInside(0xDC00 + n % 1024);
    ScanConcat(Inside, "\\u" + Hex4(0xD800 + n / 1024), "\\u" + Hex4(0xDC00 + n % 1024));
  }

  lemma EscapedInside(c: char)
    ensures Scan(Inside, Escaped(c)) == At(Inside)
  {
    if c == '"' || c == '\\' || c == '\n' || c == '\r' || c == '\t' || c as int == 8 || c as int == 12 {
      PairInside(Escaped(c)[1]);
      assert Escaped(c) == ['\\', Escaped(c)[1]];
    } else if ' ' <= c <= '~' {
      LettersInside([c]);
    } else if c as int < 0x1_0000 {
      HexInside(c as int);
    } else {
      SurrogatesInside(c as int - 0x1_0000);
    }
  }

  lemma {:induction false} QuotedInside(s: string)
    ensures Scan(Inside, Quoted(s)) == At(Inside)
  {
    if s != "" {
      var n := |s| - 1;
      QuotedInside(s[..n]);
      EscapedInside(s[n]);
      ScanConcat(Inside, Quoted(s[..n]), Escaped(s[n]));
    }
  }

  lemma StringClosed(s: string)
    ensures Closed("\"" + Quoted(s) + "\"")
  {
    assert Scan(Outside, "\"") == At(Inside) && Scan(Inside, "\"") == At(Outside) by {
      assert "\""[1..] == "";
    }
    QuotedInside(s);
    ScanConcat(Outside, "\"", Quoted(s));
    ScanConcat(Outside, "\"" + Quoted(s), "\"");
  }

  lemma {:induction false} DumpsClosed(j: Json)
    ensures Closed(Dumps(j))
    decreases j, 1, 0
  {
    match j
    case Null => NumericClosed("null");
    case Bool(_) => NumericClosed(Dumps(j));
    case Num(text) => NumericClosed(text);
    case Str(chars) => StringClosed(chars);
    case Arr(items) =>
      ItemsClosed(j, |items|);
      Bracketed("[", Items(j, |items|), "]");
    case Obj(entries) =>
      EntriesClosed(j, |entries|);
      Bracketed("{", Entries(j, |entries|), "}");
  }

  lemma Bracketed(open: string, s: string, close: string)
    requires Numeric(open) && Closed(s) && Numeric(close)
    ensures Closed(open + s + close)
  {
    NumericClosed(open);
    NumericClosed(close);
    ClosedConcat(open, s);
    ClosedConcat(open + s, close);
  }

  lemma {:induction false} ItemsClosed(j: Json, n: nat)
    requires j.Arr? && n <= |j.items|
    ensures Closed(Items(j, n))
    decreases j, 0, n
  {
    if n > 0 {
      var comma := if n > 1 then ", " else "";
      ItemsClosed(j, n - 1);
      NumericClosed(comma);
      DumpsClosed(j.items[n - 1]);
      ClosedConcat(Items(j, n - 1), comma);
      ClosedConcat(Items(j, n - 1) + comma, Dumps(j.items[n - 1]));
    }
  }

  lemma {:induction false} EntriesClosed(j: Json, n: nat)
    requires j.Obj? && n <= |j.entries|
    ensures Closed(Entries(j, n))
    decreases j, 0, n
  {
    if n > 0 {
      var comma := if n > 1 then ", " else "";
      var key := "\"" + Quoted(j.entries[n - 1].0) + "\"";
      EntriesClosed(j, n - 1);
      NumericClosed(comma);
      NumericClosed(": ");
      StringClosed(j.entries[n - 1].0);
      DumpsClosed(j.entries[n - 1].1);
      ClosedConcat(Entries(j, n - 1), comma);
      ClosedConcat(key, ": ");
      ClosedConcat(Entries(j, n - 1) + comma, key + ": ");
      ClosedConcat(Entries(j, n - 1) + comma + (key + ": "), Dumps(j.entries[n - 1].1));
    }
  }

  /** A closed text followed by a bar never starts another closed text. */
  lemma BarEndsText(a: string, b: string)
    requires Closed(a) && a + "|" <= b
    ensures !Closed(b)
  {
    var rest := b[|a| + 1..];
    assert b == (a + "|") + rest;
    ScanConcat(Outside, a, "|");
    ScanConcat(Outside, a + "|", rest);
    assert Scan(Outside, "|") == BarOutside;
  }

  // ----- the two change fields -----

  /** json.dumps of a change: None or a dictionary. */
  ghost predicate ChangeText(s: string) {
    exists j :: IsChange(j) && s == Dumps(j)
  }

  predicate IsChange(j: Json) {
    j.Null? || j.Obj?
  }

  lemma NullIsChange()
    ensures ChangeText("null")
  {
    assert IsChange(Null) && Dumps(Null) == "null";
  }

  lemma ChangesEndAtBars(a: string, b: string)
    requires ChangeText(a) && ChangeText(b)
    ensures !(a + "|" <= b)
  {
    var i, j :| IsChange(i) && a == Dumps(i) && IsChange(j) && b == Dumps(j);
    DumpsClosed(i);
    DumpsClosed(j);
    if a + "|" <= b {
      BarEndsText(a, b);
    }
  }

  /** A change text is null or starts with a brace. */
  lemma ChangeStart(s: string)
    requires ChangeText(s)
    ensures s == "null" || (s != "" && s[0] == '{')
  {
    var j :| IsChange(j) && s == Dumps(j);
    assert j.Obj? ==> s[0] == '{';
  }
}
