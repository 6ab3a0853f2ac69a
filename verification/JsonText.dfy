// The JSON texts that ping_json.c prints, and a reader for them that serves as their meaning.
module JsonText {
  import opened Words

  datatype Value =
    | Str(s: string)
    | Int(n: int)
    | Arr(items: seq<string>)
    | Obj(members: seq<Member>)

  datatype Member = Member(key: string, value: Value)

  // ---------- Writing ----------

  function Digit(n: nat): char
    requires n < 10
  {
    '0' + n as char
  }

  /** %u */
  function Decimal(n: nat): (s: string)
    ensures |s| > 0
  {
    if n < 10 then [Digit(n)] else Decimal(n / 10) + [Digit(n % 10)]
  }

  /** %d */
  function Signed(n: int): string {
    if n < 0 then "-" + Decimal(-n) else Decimal(n)
  }

  function Quoted(s: string): string {
    "\"" + s + "\""
  }

  function Items(items: seq<string>): string {
    if |items| == 0 then ""
    else if |items| == 1 then Quoted(items[0])
    else Quoted(items[0]) + ", " + Items(items[1..])
  }

  function ValueText(v: Value): string {
    match v
    case Str(s) => Quoted(s)
    case Int(n) => Signed(n)
    case Arr(items) => "[" + Items(items) + "]"
    case Obj(members) => "{" + Members(members) + "}"
  }

  function MemberText(m: Member): string {
    Quoted(m.key) + ": " + ValueText(m.value)
  }

  /** Members separated by commas. */
  function Members(ms: seq<Member>): string {
    if |ms| == 0 then ""
    else if |ms| == 1 then MemberText(ms[0])
    else MemberText(ms[0]) + ", " + Members(ms[1..])
  }

  function ObjectText(ms: seq<Member>): string {
    "{" + Members(ms) + "}"
  }

  // ---------- Strings that need no escaping ----------

  predicate Plain(s: string) {
    forall c | c in s :: c != '"' && c != '\\' && c >= ' '
  }

  predicate PlainValue(v: Value) {
    match v
    case Str(s) => Plain(s)
    case Int(_) => true
    case Arr(items) => forall s | s in items :: Plain(s)
    case Obj(members) => PlainMembers(members)
  }

  predicate PlainMembers(ms: seq<Member>) {
    forall m | m in ms :: Plain(m.key) && PlainValue(m.value)
  }

  // ---------- Reading ----------

  predicate Blank(c: char) {
    c == ' ' || c == '\t' || c == '\n' || c == '\r'
  }

  /** What follows any white space. */
  function Skip(t: string): (u: string)
    ensures |u| <= |t| && (u == "" || !Blank(u[0]))
  {
    if |t| > 0 && Blank(t[0]) then Skip(t[1..]) else t
  }

  /** What follows a punctuation mark, which white space may precede. */
  function Punct(t: string, mark: char): (r: Option<string>)
    ensures r.Some? ==> |r.value| < |t|
  {
    var u := Skip(t);
    if |u| > 0 && u[0] == mark then Some(u[1..]) else None
  }

  predicate IsDigit(c: char) {
    '0' <= c <= '9'
  }

  /** Length of the longest prefix of digits. */
  function DigitRun(t: string): (n: nat)
    ensures n <= |t|
  {
    if |t| == 0 || !IsDigit(t[0]) then 0 else 1 + DigitRun(t[1..])
  }

  function Number(t: string): int {
    if |t| == 0 then 0 else 10 * Number(t[..|t| - 1]) + (t[|t| - 1] as int - '0' as int)
  }

  /** Length of the string up to the closing quote; the whole text when there is none. */
  function QuoteRun(t: string): (n: nat)
    ensures n <= |t|
  {
    if |t| == 0 || t[0] == '"' then 0 else 1 + QuoteRun(t[1..])
  }

  function ReadString(t: string): (r: Option<(string, string)>)
    ensures r.Some? ==> |r.value.1| < |t|
  {
    if |t| == 0 || t[0] != '"' then None
    else
      var n := QuoteRun(t[1..]);
      if n == |t| - 1 then None else Some((t[1..][..n], t[1..][n + 1..]))
  }

  function ReadNumber(t: string): (r: Option<(int, string)>)
    ensures r.Some? ==> |r.value.1| < |t|
  {
    var negative := |t| > 0 && t[0] == '-';
    var u := if negative then t[1..] else t;
    var n := DigitRun(u);
    if n == 0 then None else Some((if negative then -Number(u[..n]) else Number(u[..n]), u[n..]))
  }

  /** One or more strings separated by commas. */
  function ReadItems(t: string): (r: Option<(seq<string>, string)>)
    ensures r.Some? ==> |r.value.1| < |t|
    decreases |t|
  {
    match ReadString(t)
    case None => None
    case Some((s, u)) =>
      match Punct(u, ',')
      case None => Some(([s], u))
      case Some(v) =>
        match ReadItems(Skip(v))
        case None => None
        case Some((more, rest)) => Some(([s] + more, rest))
  }

  /** A value, which must begin with the text; white space may stand before any mark inside it. */
  function ReadValue(t: string): (r: Option<(Value, string)>)
    ensures r.Some? ==> |r.value.1| < |t|
    decreases |t|, 0
  {
    if |t| == 0 then None
    else if t[0] == '"' then
      match ReadString(t)
      case None => None
      case Some((s, u)) => Some((Str(s), u))
    else if t[0] == '[' then
      match Punct(t[1..], ']')
      case Some(u) => Some((Arr([]), u))
      case None =>
        match ReadItems(Skip(t[1..]))
        case None => None
        case Some((items, u)) => Closed(Arr(items), u, ']')
    else if t[0] == '{' then
      match Punct(t[1..], '}')
      case Some(u) => Some((Obj([]), u))
      case None =>
        match ReadMembers(Skip(t[1..]))
        case None => None
        case Some((ms, u)) => Closed(Obj(ms), u, '}')
    else
      match ReadNumber(t)
      case None => None
      case Some((n, u)) => Some((Int(n), u))
  }

  function Closed(v: Value, t: string, bracket: char): (r: Option<(Value, string)>)
    ensures r.Some? ==> |r.value.1| < |t|
  {
    match Punct(t, bracket)
    case None => None
    case Some(rest) => Some((v, rest))
  }

  function ReadMember(t: string): (r: Option<(Member, string)>)
    ensures r.Some? ==> |r.value.1| < |t|
    decreases |t|, 1
  {
    match ReadString(t)
    case None => None
    case Some((key, u)) =>
      match Punct(u, ':')
      case None => None
      case Some(v) =>
        match ReadValue(Skip(v))
        case None => None
        case Some((value, rest)) => Some((Member(key, value), rest))
  }

  /** One or more members separated by commas. */
  function ReadMembers(t: string): (r: Option<(seq<Member>, string)>)
    ensures r.Some? ==> |r.value.1| < |t|
    decreases |t|, 2
  {
    match ReadMember(t)
    case None => None
    case Some((m, u)) =>
      match Punct(u, ',')
      case None => Some(([m], u))
      case Some(v) =>
        match ReadMembers(Skip(v))
        case None => None
        case Some((more, rest)) => Some(([m] + more, rest))
  }

  /** The members of a text that is one JSON object, with white space at most around it. */
  function Read(t: string): Option<seq<Member>> {
    match ReadValue(Skip(t))
    case Some((Obj(ms), u)) => if Skip(u) == "" then Some(ms) else None
    case _ => None
  }

  // ---------- Reading undoes writing ----------

  lemma {:induction false} DecimalDigits(n: nat)
    ensures (forall c | c in Decimal(n) :: IsDigit(c)) && Number(Decimal(n)) == n
  {
    if n < 10 {
      assert Decimal(n)[..0] == "";
    } else {
      DecimalDigits(n / 10);
      assert Decimal(n)[..|Decimal(n)| - 1] == Decimal(n / 10);
    }
  }

  lemma {:induction false} DigitRunIs(s: string, t: string)
    requires (forall c | c in s :: IsDigit(c)) && (t == "" || !IsDigit(t[0]))
    ensures DigitRun(s + t) == |s|
  {
    if |s| == 0 {
      assert s + t == t;
    } else {
      assert (s + t)[0] in s && (s + t)[1..] == s[1..] + t;
      DigitRunIs(s[1..], t);
    }
  }

  lemma {:induction false} QuoteRunIs(s: string, t: string)
    requires Plain(s)
    ensures QuoteRun(s + "\"" + t) == |s|
  {
    var u := s + "\"" + t;
    if |s| > 0 {
      assert u[0] in s && u[1..] == s[1..] + "\"" + t;
      assert forall c | c in s[1..] :: c in s;
      QuoteRunIs(s[1..], t);
    }
  }

  lemma StringRead(s: string, t: string)
    requires Plain(s)
    ensures ReadString(Quoted(s) + t) == Some((s, t))
  {
    var u := Quoted(s) + t;
    assert u[1..] == s + "\"" + t;
    QuoteRunIs(s, t);
    assert u[1..][..|s|] == s && u[1..][|s| + 1..] == t;
  }

  lemma NumberRead(n: int, t: string)
    requires t == "" || !IsDigit(t[0])
    ensures ReadNumber(Signed(n) + t) == Some((n, t)) && (Signed(n)[0] == '-' || IsDigit(Signed(n)[0]))
  {
    hide Decimal, DigitRun, Number, ReadNumber, IsDigit;
    if n < 0 {
      var d := Decimal(-n);
      DecimalDigits(-n);
      NegativeRead(d, t);
      assert "-" + d + t == "-" + (d + t);
    } else {
      var d := Decimal(n);
      DecimalDigits(n);
      NaturalRead(d, t);
    }
  }

  lemma NaturalRead(d: string, t: string)
    requires d != "" && (forall c | c in d :: IsDigit(c)) && (t == "" || !IsDigit(t[0]))
    ensures IsDigit(d[0]) && ReadNumber(d + t) == Some((Number(d), t))
  {
    hide DigitRun, Number;
    Digits(d, t);
  }

  lemma NegativeRead(d: string, t: string)
    requires d != "" && (forall c | c in d :: IsDigit(c)) && (t == "" || !IsDigit(t[0]))
    ensures ReadNumber("-" + (d + t)) == Some((-Number(d), t))
  {
    hide DigitRun, Number;
    Digits(d, t);
    assert ("-" + (d + t))[1..] == d + t;
  }

  /** A run of digits at the head of a text. */
  lemma Digits(d: string, t: string)
    requires d != "" && (forall c | c in d :: IsDigit(c)) && (t == "" || !IsDigit(t[0]))
    ensures (d + t)[0] == d[0] && IsDigit(d[0]) && DigitRun(d + t) == |d| && (d + t)[..|d|] == d && (d + t)[|d|..] == t
  {
    assert d[0] in d;
    DigitRunIs(d, t);
  }

  /** The separators the program prints, as the reader takes them. */
  lemma Separated(mark: char, u: string)
    requires !Blank(mark) && u != "" && !Blank(u[0])
    ensures Punct([mark] + " " + u, mark) == Some(" " + u) && Skip(" " + u) == u
  {
    assert [mark] + " " + u == [mark] + (" " + u);
    Bracketed(mark, " " + u);
    OneBlank(u);
  }

  lemma NotBlank(t: string)
    requires t == "" || !Blank(t[0])
    ensures Skip(t) == t
  {
  }

  lemma OneBlank(u: string)
    requires u != "" && !Blank(u[0])
    ensures Skip(" " + u) == u
  {
    var v := " " + u;
    assert v[0] == ' ' && v[1..] == u && Skip(u) == u;
  }

  lemma Bracketed(mark: char, t: string)
    requires !Blank(mark)
    ensures Punct([mark] + t, mark) == Some(t)
    ensures forall other :: other != mark ==> Punct([mark] + t, other) == None
  {
    assert ([mark] + t)[0] == mark && ([mark] + t)[1..] == t;
  }

  lemma ItemsStep(s: string, t: string)
    requires Plain(s)
    ensures ReadItems(Quoted(s) + t) ==
              match Punct(t, ',')
              case None => Some(([s], t))
              case Some(v) =>
                match ReadItems(Skip(v))
                case None => None
                case Some((more, rest)) => Some(([s] + more, rest))
  {
    StringRead(s, t);
    hide ReadString, Quoted, Punct, Skip;
  }

  lemma {:induction false} ItemsRead(items: seq<string>, t: string)
    requires |items| > 0 && (forall s | s in items :: Plain(s)) && Punct(t, ',') == None
    ensures ReadItems(Items(items) + t) == Some((items, t))
    decreases |items|
  {
    hide ReadItems, Quoted, Plain, Punct, Skip;
    assert items[0] in items;
    if |items| == 1 {
      ItemsStep(items[0], t);
      assert items == [items[0]];
    } else {
      var u := Items(items[1..]) + t;
      assert Items(items) + t == Quoted(items[0]) + ("," + " " + u);
      FirstItem(items[1..]);
      assert u[0] == Items(items[1..])[0];
      Separated(',', u);
      ItemsStep(items[0], "," + " " + u);
      assert forall s | s in items[1..] :: s in items;
      ItemsRead(items[1..], t);
      assert [items[0]] + items[1..] == items;
    }
  }

  lemma FirstItem(items: seq<string>)
    requires |items| > 0
    ensures |Items(items)| > 0 && Items(items)[0] == '"'
  {
    var front := Quoted(items[0]);
    assert Items(items) == if |items| == 1 then front else front + (", " + Items(items[1..]));
    assert |front| > 0 && front[0] == '"';
  }

  lemma FirstQuote(ms: seq<Member>)
    requires |ms| > 0
    ensures |Members(ms)| > 0 && Members(ms)[0] == '"'
  {
    var front := MemberText(ms[0]);
    assert front == Quoted(ms[0].key) + (": " + ValueText(ms[0].value));
    assert Members(ms) == if |ms| == 1 then front else front + (", " + Members(ms[1..]));
    assert |front| > 0 && front[0] == '"';
  }

  /** What may follow a value: a comma, a closing bracket or nothing. */
  predicate Follows(t: string) {
    t == "" || t[0] in ",}]"
  }

  /** The text behind an opening bracket, when it is not empty. */
  lemma Opened(inner: string, t: string, close: char)
    requires |inner| > 0 && inner[0] == '"' && close != '"'
    ensures var u := inner + ([close] + t);
            Punct(u, close) == None && Skip(u) == u
  {
    assert (inner + ([close] + t))[0] == '"';
  }

  lemma ArrRead(items: seq<string>, t: string)
    requires forall s | s in items :: Plain(s)
    ensures ReadValue(ValueText(Arr(items)) + t) == Some((Arr(items), t))
  {
    hide ReadItems, Items, ReadString, ReadMembers, ReadNumber, Quoted, Plain, Members, Punct, Skip;
    var u := ValueText(Arr(items)) + t;
    assert u[0] == '[';
    Bracketed(']', t);
    if |items| == 0 {
      NoItems();
      assert u[1..] == "]" + t;
    } else {
      ItemsRead(items, "]" + t);
      FirstItem(items);
      Opened(Items(items), t, ']');
      assert u[1..] == Items(items) + ("]" + t);
    }
  }

  lemma NoItems()
    ensures Items([]) == ""
  {
  }

  lemma NoMembers()
    ensures Members([]) == "" && ValueText(Obj([])) == "{" + "" + "}"
  {
  }

  lemma ObjRead(ms: seq<Member>, t: string)
    requires ms == [] || ReadMembers(Members(ms) + ("}" + t)) == Some((ms, "}" + t))
    ensures ReadValue(ValueText(Obj(ms)) + t) == Some((Obj(ms), t))
  {
    hide ReadItems, Items, ReadString, ReadMembers, ReadNumber, Quoted, Punct, Skip;
    var u := ValueText(Obj(ms)) + t;
    assert u[0] == '{';
    Bracketed('}', t);
    if |ms| == 0 {
      NoMembers();
      assert u[1..] == "}" + t;
    } else {
      FirstQuote(ms);
      Opened(Members(ms), t, '}');
      assert u[1..] == Members(ms) + ("}" + t);
    }
  }

  lemma {:induction false} ValueRead(v: Value, t: string)
    requires PlainValue(v) && Follows(t)
    ensures ReadValue(ValueText(v) + t) == Some((v, t))
    ensures ValueText(v) != "" && !Blank(ValueText(v)[0])
    decreases v, 0
  {
    match v
    case Str(s) =>
      StringRead(s, t);
    case Int(n) =>
      NumberRead(n, t);
    case Arr(items) =>
      ArrRead(items, t);
    case Obj(ms) =>
      if |ms| > 0 {
        Bracketed('}', t);
        assert ("}" + t)[0] == '}';
        MembersRead(ms, "}" + t);
      }
      ObjRead(ms, t);
  }

  lemma {:induction false} MemberRead(m: Member, t: string)
    requires Plain(m.key) && PlainValue(m.value) && Follows(t)
    ensures ReadMember(MemberText(m) + t) == Some((m, t))
    decreases m, 1
  {
    hide ReadString, ReadValue, Quoted, Plain, PlainValue, Follows, ValueText, Punct, Skip;
    var u := ValueText(m.value) + t;
    assert MemberText(m) + t == Quoted(m.key) + (":" + " " + u);
    StringRead(m.key, ":" + " " + u);
    ValueRead(m.value, t);
    assert u[0] == ValueText(m.value)[0];
    Separated(':', u);
  }

  lemma {:induction false} MembersStep(m: Member, t: string)
    requires Plain(m.key) && PlainValue(m.value) && Follows(t)
    ensures ReadMembers(MemberText(m) + t) ==
              match Punct(t, ',')
              case None => Some(([m], t))
              case Some(v) =>
                match ReadMembers(Skip(v))
                case None => None
                case Some((more, rest)) => Some(([m] + more, rest))
    decreases m, 2
  {
    MemberRead(m, t);
    hide ReadMember, MemberText, Punct, Skip;
  }

  lemma {:induction false} MembersRead(ms: seq<Member>, t: string)
    requires |ms| > 0 && PlainMembers(ms) && Follows(t) && Punct(t, ',') == None
    ensures ReadMembers(Members(ms) + t) == Some((ms, t))
    decreases ms, 0
  {
    hide ReadMembers, MemberText, Plain, PlainValue, Punct, Skip;
    var m := ms[0];
    assert m in ms;
    if |ms| == 1 {
      MembersStep(m, t);
      assert ms == [m];
    } else {
      var u := Members(ms[1..]) + t;
      assert Members(ms) + t == MemberText(m) + ("," + " " + u);
      FirstQuote(ms[1..]);
      assert u[0] == Members(ms[1..])[0];
      Separated(',', u);
      MembersStep(m, "," + " " + u);
      assert forall k | k in ms[1..] :: k in ms;
      MembersRead(ms[1..], t);
      assert [m] + ms[1..] == ms;
    }
  }

  /** After written members and a comma, reading goes on with whatever follows. */
  lemma {:induction false} MembersThen(ms: seq<Member>, t: string)
    requires |ms| > 0 && PlainMembers(ms)
    ensures ReadMembers(Members(ms) + ("," + t)) ==
              match ReadMembers(Skip(t))
              case None => None
              case Some((more, rest)) => Some((ms + more, rest))
    decreases |ms|
  {
    hide ReadMembers, MemberText, Plain, PlainValue, Punct, Skip;
    var m, v := ms[0], "," + t;
    assert m in ms && v[0] == ',';
    if |ms| == 1 {
      Bracketed(',', t);
      MembersStep(m, v);
      assert ms == [m];
    } else {
      var u := Members(ms[1..]) + v;
      assert Members(ms) + v == MemberText(m) + ("," + " " + u);
      FirstQuote(ms[1..]);
      assert u[0] == Members(ms[1..])[0];
      Separated(',', u);
      MembersStep(m, "," + " " + u);
      assert forall k | k in ms[1..] :: k in ms;
      MembersThen(ms[1..], t);
      match ReadMembers(Skip(t))
      case None =>
      case Some((more, rest)) =>
        assert [m] + (ms[1..] + more) == ms + more;
    }
  }

  /** The text of an object, and white space after it, reads back as its keys and values, in order. */
  lemma ObjectRead(ms: seq<Member>, blanks: string)
    requires PlainMembers(ms) && Skip(blanks) == ""
    ensures Read(ObjectText(ms) + blanks) == Some(ms)
  {
    hide ReadValue, Members, Skip, Punct;
    var t := ObjectText(ms) + blanks;
    assert t[0] == '{' && t == ValueText(Obj(ms)) + blanks;
    NotBlank(t);
    if |ms| > 0 {
      Bracketed('}', blanks);
      assert ("}" + blanks)[0] == '}';
      MembersRead(ms, "}" + blanks);
    }
    ObjRead(ms, blanks);
  }

  lemma {:induction false} MembersAppend(ms: seq<Member>, more: seq<Member>)
    requires |ms| > 0 && |more| > 0
    ensures Members(ms + more) == Members(ms) + ", " + Members(more)
    decreases |ms|
  {
    if |ms| == 1 {
      assert (ms + more)[1..] == more;
    } else {
      assert (ms + more)[1..] == ms[1..] + more;
      MembersAppend(ms[1..], more);
    }
  }
}
