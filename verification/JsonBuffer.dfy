// The buffer in which ping_json.c builds an object, and the order in which the program fills it.
module JsonBuffer {
  import opened Words
  import opened JsonText

  const PING_JSON_MAX := 4000
  const NUL := '\0'

  /** Members printed one after another only make the text longer, by a separator at least. */
  lemma PrefixShorter(ms: seq<Member>, more: seq<Member>)
    ensures |Members(ms)| + (if |ms| > 0 && |more| > 0 then 2 else 0) + |Members(more)| == |Members(ms + more)|
  {
    if |ms| == 0 {
      assert ms + more == more;
    } else if |more| == 0 {
      assert ms + more == ms;
    } else {
      MembersAppend(ms, more);
    }
  }

  /** The text before the next member. */
  function Opening(ms: seq<Member>): (t: string)
    ensures |t| > 0 && t[0] == '{'
  {
    if |ms| == 0 then "{" else "{" + Members(ms) + ", "
  }

  lemma OpeningThen(ms: seq<Member>, m: Member)
    ensures Opening(ms) + MemberText(m) == "{" + Members(ms + [m])
  {
    if |ms| > 0 {
      MembersAppend(ms, [m]);
    } else {
      assert ms + [m] == [m];
    }
  }

  /** The first k members of a plan. */
  function Take(plan: seq<Member>, k: nat): (ms: seq<Member>)
    requires k <= |plan|
    ensures |ms| == k
  {
    plan[..k]
  }

  /** One member more of a plan, with room behind it for a separator unless it is the last. */
  lemma TakeMore(plan: seq<Member>, k: nat)
    requires k < |plan|
    ensures Opening(Take(plan, k)) + MemberText(plan[k]) == "{" + Members(Take(plan, k + 1))
    ensures |Members(Take(plan, k + 1))| <= |Members(plan)|
    ensures |Opening(Take(plan, k))| <= 1 + |Members(plan)|
    ensures k + 1 == |plan| ==> Take(plan, k + 1) == plan
  {
    hide Members, MemberText;
    OpeningThen(plan[..k], plan[k]);
    assert plan[..k] + [plan[k]] == plan[..k + 1] && plan[..k + 1] + plan[k + 1..] == plan;
    assert plan[..k] + plan[k..] == plan;
    PrefixShorter(plan[..k + 1], plan[k + 1..]);
    PrefixShorter(plan[..k], plan[k..]);
  }

  class Buffer {
    const text: array<char>
    var size: nat

    ghost predicate Valid()
      reads this, text
    {
      text.Length == PING_JSON_MAX && size < PING_JSON_MAX && text[size] == NUL && (size > 0 ==> text[0] == '{')
    }

    ghost function Contents(): string
      requires Valid()
      reads this, text
    {
      text[..size]
    }

    /** Some members stand in the buffer, nothing after them. */
    ghost predicate Open(ms: seq<Member>)
      reads this, text
    {
      Valid() && Contents() == "{" + Members(ms)
    }

    /** The buffer is ready for another member. */
    ghost predicate Expecting(ms: seq<Member>)
      reads this, text
    {
      Valid() && Contents() == Opening(ms)
    }

    constructor ()
      ensures Valid() && Contents() == "" && fresh(text)
    {
      text := new char[PING_JSON_MAX](_ => NUL);
      size := 0;
    }

    /**
     * snprintf behind the text, which cuts what does not fit, then json_bufsize. The check there
     * looks at the piece alone: the program exits, here with the size unchanged, when the piece
     * has PING_JSON_MAX bytes, and otherwise the size passes the end with a piece that was cut.
     */
    method Append(piece: string)
      requires Valid() && (size == 0 ==> piece == "" || piece[0] == '{')
      modifies this, text
      ensures old(size) + |piece| < PING_JSON_MAX ==> Valid() && Contents() == old(Contents()) + piece
      ensures old(size) + |piece| >= PING_JSON_MAX ==>
                && text[..PING_JSON_MAX - 1] == (old(Contents()) + piece)[..PING_JSON_MAX - 1]
                && text[PING_JSON_MAX - 1] == NUL
      ensures size == if |piece| >= PING_JSON_MAX then old(size) else old(size) + |piece|
    {
      var n := if size + |piece| < PING_JSON_MAX then |piece| else PING_JSON_MAX - size - 1;
      forall i | 0 <= i < n {
        text[size + i] := piece[i];
      }
      text[size + n] := NUL;
      if |piece| < PING_JSON_MAX {
        size := size + |piece|;
      }
    }

    method StartObject()
      requires Valid() && Contents() == ""
      modifies this, text
      ensures Expecting([])
    {
      Append("{");
    }

    method EndObject(ghost ms: seq<Member>)
      requires Open(ms) && |ObjectText(ms)| < PING_JSON_MAX
      modifies this, text
      ensures Valid() && Contents() == ObjectText(ms)
    {
      Append("}");
    }

    method Continue(ghost ms: seq<Member>)
      requires Open(ms) && |ms| > 0 && |Opening(ms)| < PING_JSON_MAX
      modifies this, text
      ensures Expecting(ms)
    {
      Append(", ");
    }

    /** json_kv_str, json_kv_int, json_kv_uint: one format string for each. */
    method Kv(m: Member, ghost plan: seq<Member>, ghost k: nat)
      requires m.value.Str? || m.value.Int?
      requires k < |plan| && m == plan[k] && Expecting(Take(plan, k)) && 1 + |Members(plan)| < PING_JSON_MAX
      modifies this, text
      ensures Open(Take(plan, k + 1))
    {
      hide Members, Opening, Take;
      TakeMore(plan, k);
      Append(MemberText(m));
    }

    method KvContinue(m: Member, ghost plan: seq<Member>, ghost k: nat)
      requires m.value.Str? || m.value.Int?
      requires k < |plan| && m == plan[k] && Expecting(Take(plan, k)) && 1 + |Members(plan)| < PING_JSON_MAX
      requires k + 1 == |plan| ==> |Opening(plan)| < PING_JSON_MAX
      modifies this, text
      ensures Expecting(Take(plan, k + 1))
    {
      hide Members, Opening, Take;
      TakeMore(plan, k);
      if k + 1 < |plan| {
        TakeMore(plan, k + 1);
      }
      Kv(m, plan, k);
      Continue(Take(plan, k + 1));
    }

    /** json_kv_array: the strings of the argument list, up to its null pointer. */
    method KvArray(key: string, items: seq<string>, ghost plan: seq<Member>, ghost k: nat)
      requires k < |plan| && plan[k] == Member(key, Arr(items))
      requires Expecting(Take(plan, k)) && 1 + |Members(plan)| < PING_JSON_MAX
      modifies this, text
      ensures Open(Take(plan, k + 1))
    {
      hide Members, Items, Quoted, Opening, Take, MemberText;
      ArrayMember(plan[k], Opening(Take(plan, k)));
      TakeMore(plan, k);
      Append(Quoted(key) + ": [");
      AppendItems(items);
      Append("]");
    }

    method AppendItems(items: seq<string>)
      requires Valid() && 0 < size && size + |Items(items)| < PING_JSON_MAX
      modifies this, text
      ensures Valid() && Contents() == old(Contents()) + Items(items)
    {
      hide Items, Quoted;
      NoItems();
      assert items[..|items|] == items;
      for count := 0 to |items|
        invariant Valid() && size > 0 && Contents() == old(Contents()) + Items(items[..count])
      {
        NextItem(items, count);
        if count > 0 {
          Append(", ");
        }
        Append(Quoted(items[count]));
      }
    }

    /** json_kv_object: closes the other buffer and prints its characters as the value. */
    method KvObject(key: string, inner: Buffer, ghost members: seq<Member>, ghost plan: seq<Member>, ghost k: nat)
      requires inner != this && inner.text != text && inner.Open(members)
      requires k < |plan| && plan[k] == Member(key, Obj(members))
      requires Expecting(Take(plan, k)) && 1 + |Members(plan)| < PING_JSON_MAX
      modifies this, text, inner, inner.text
      ensures Open(Take(plan, k + 1))
    {
      hide Members, Quoted, Opening, Take;
      TakeMore(plan, k);
      ObjectMember(plan[k]);
      inner.EndObject(members);
      Append(Quoted(key) + ": " + inner.text[..inner.size]);
    }

    /** construct_json: one more member, after a comma or an opening bracket. */
    method ConstructJson(m: Member, ghost plan: seq<Member>, ghost k: nat)
      requires k < |plan| && m == plan[k] && !m.value.Obj?
      requires if k == 0 then Valid() && Contents() == "" else Open(Take(plan, k))
      requires 1 + |Members(plan)| < PING_JSON_MAX
      modifies this, text
      ensures Open(Take(plan, k + 1))
    {
      TakeMore(plan, k);
      hide Members;
      if text[0] != NUL {
        Continue(Take(plan, k));
      } else {
        StartObject();
      }
      if m.value.Arr? {
        KvArray(m.key, m.value.items, plan, k);
      } else {
        Kv(m, plan, k);
      }
    }

    /** print_json_and_reset: what goes to standard output, and an empty buffer. */
    method PrintAndReset() returns (out: string)
      requires Valid()
      modifies this, text
      ensures out == old(Contents()) + "}\n" && Valid() && Contents() == ""
    {
      out := text[..size] + "}\n";
      text[0] := NUL;
      size := 0;
    }
  }

  lemma {:induction false} ItemsSnoc(items: seq<string>, s: string)
    ensures Items(items + [s]) == if |items| == 0 then Quoted(s) else Items(items) + ", " + Quoted(s)
  {
    if |items| == 1 {
      assert (items + [s])[1..] == [s];
    } else if |items| > 1 {
      assert (items + [s])[1..] == items[1..] + [s];
      ItemsSnoc(items[1..], s);
    }
  }

  lemma {:induction false} ItemsShorter(items: seq<string>, k: nat)
    requires k <= |items|
    ensures |Items(items[..k])| <= |Items(items)|
    decreases |items| - k
  {
    if k < |items| {
      ItemsSnoc(items[..k], items[k]);
      assert items[..k + 1] == items[..k] + [items[k]];
      ItemsShorter(items, k + 1);
    } else {
      assert items[..k] == items;
    }
  }

  /** One turn of the loop over an argument list. */
  lemma NextItem(items: seq<string>, k: nat)
    requires k < |items|
    ensures Items(items[..k + 1]) == (if k == 0 then "" else Items(items[..k]) + ", ") + Quoted(items[k])
    ensures |Items(items[..k + 1])| <= |Items(items)|
  {
    assert items[..k + 1] == items[..k] + [items[k]];
    ItemsSnoc(items[..k], items[k]);
    ItemsShorter(items, k + 1);
  }

  lemma ArrayMember(m: Member, before: string)
    requires m.value.Arr?
    ensures before + MemberText(m) == before + (Quoted(m.key) + ": [") + Items(m.value.items) + "]"
  {
    hide Items, Quoted;
  }

  lemma ObjectMember(m: Member)
    requires m.value.Obj?
    ensures MemberText(m) == Quoted(m.key) + ": " + ObjectText(m.value.members)
  {
  }

  /** Any run of construct_json calls that fits, printed, reads back as its keys and values. */
  method PrintPacket(members: seq<Member>) returns (out: string)
    requires |members| > 0 && PlainMembers(members) && forall m | m in members :: !m.value.Obj?
    requires 1 + |Members(members)| < PING_JSON_MAX
    ensures out == ObjectText(members) + "\n" && Read(out) == Some(members)
  {
    hide Members;
    var packet := new Buffer();
    for i := 0 to |members|
      invariant fresh(packet) && fresh(packet.text)
      invariant if i == 0 then packet.Valid() && packet.Contents() == "" else packet.Open(Take(members, i))
    {
      packet.ConstructJson(members[i], members, i);
    }
    assert Take(members, |members|) == members;
    out := packet.PrintAndReset();
    ObjectRead(members, "\n");
  }

  // ---------- The statistics object ----------

  datatype Summary = Summary(
    host: string,
    transmitted: int,
    received: int,
    duplicates: int,
    corrupted: int,
    errors: int,
    loss: int,
    time: int,
    rttMin: string,
    rttAvg: string,
    rttMax: string,
    rttMdev: string,
    pipesize: int)

  function Rtt(a: Summary): seq<Member> {
    [Member("min", Str(a.rttMin)), Member("avg", Str(a.rttAvg)),
     Member("max", Str(a.rttMax)), Member("mdev", Str(a.rttMdev))]
  }

  function Counters(a: Summary): seq<Member> {
    [Member("host", Str(a.host)), Member("transmitted", Int(a.transmitted)), Member("received", Int(a.received)),
     Member("duplicates", Int(a.duplicates)), Member("corrupted", Int(a.corrupted)), Member("errors", Int(a.errors)),
     Member("loss", Int(a.loss)), Member("time", Int(a.time))]
  }

  function Basic(a: Summary): seq<Member> {
    Counters(a) + [Member("rtt", Obj(Rtt(a)))]
  }

  function Pipe(a: Summary): seq<Member> {
    if a.pipesize > 1 then [Member("pipe", Int(a.pipesize))] else []
  }

  function Flood(ipg: string, ewma: string): seq<Member> {
    [Member("ipg", Str(ipg)), Member("ewma", Str(ewma))]
  }

  /** Everything that may be printed about a run. */
  function Plan(a: Summary, ipg: string, ewma: string): seq<Member> {
    Basic(a) + Pipe(a) + Flood(ipg, ewma)
  }

  /** What print_json_statistics prints, with or without the flood fields. */
  function Printed(a: Summary, flood: bool, ipg: string, ewma: string): string {
    Built(a, flood, ipg, ewma) + "}"
  }

  /** The text that stands in the buffer before it is printed. */
  function Built(a: Summary, flood: bool, ipg: string, ewma: string): string {
    if flood then "{" + Members(Plan(a, ipg, ewma))
    else if a.pipesize > 1 then Opening(Basic(a) + Pipe(a))
    else "{" + Members(Basic(a))
  }

  lemma RttIs(a: Summary)
    ensures var plan := Rtt(a);
            && |plan| == 4 && Take(plan, 0) == [] && Take(plan, 4) == plan
            && plan[0] == Member("min", Str(a.rttMin)) && plan[1] == Member("avg", Str(a.rttAvg))
            && plan[2] == Member("max", Str(a.rttMax)) && plan[3] == Member("mdev", Str(a.rttMdev))
  {
  }

  /** The round-trip object, in a buffer of its own. */
  method ConstructRtt(a: Summary) returns (rtt: Buffer)
    requires 1 + |Members(Rtt(a))| < PING_JSON_MAX
    ensures rtt.Open(Rtt(a)) && fresh(rtt) && fresh(rtt.text)
  {
    hide *;
    ghost var plan := Rtt(a);
    RttIs(a);
    rtt := new Buffer();
    rtt.StartObject();
    rtt.KvContinue(Member("min", Str(a.rttMin)), plan, 0);
    rtt.KvContinue(Member("avg", Str(a.rttAvg)), plan, 1);
    rtt.KvContinue(Member("max", Str(a.rttMax)), plan, 2);
    rtt.Kv(Member("mdev", Str(a.rttMdev)), plan, 3);
  }

  lemma CountersAre(a: Summary)
    ensures var plan := Counters(a);
            && |plan| == 8 && Take(plan, 0) == [] && Take(plan, 8) == plan
            && 1 + |Members(plan)| < |Opening(plan)|
            && plan[0] == Member("host", Str(a.host)) && plan[1] == Member("transmitted", Int(a.transmitted))
            && plan[2] == Member("received", Int(a.received)) && plan[3] == Member("duplicates", Int(a.duplicates))
            && plan[4] == Member("corrupted", Int(a.corrupted)) && plan[5] == Member("errors", Int(a.errors))
            && plan[6] == Member("loss", Int(a.loss)) && plan[7] == Member("time", Int(a.time))
  {
    hide Members;
  }

  /** The fields of construct_json_statistics before the round-trip object. */
  method ConstructCounters(stats: Buffer, a: Summary)
    requires stats.Valid() && stats.Contents() == "" && |Opening(Counters(a))| < PING_JSON_MAX
    modifies stats, stats.text
    ensures stats.Expecting(Counters(a))
  {
    hide *;
    ghost var plan := Counters(a);
    CountersAre(a);
    stats.StartObject();
    stats.KvContinue(Member("host", Str(a.host)), plan, 0);
    stats.KvContinue(Member("transmitted", Int(a.transmitted)), plan, 1);
    stats.KvContinue(Member("received", Int(a.received)), plan, 2);
    stats.KvContinue(Member("duplicates", Int(a.duplicates)), plan, 3);
    stats.KvContinue(Member("corrupted", Int(a.corrupted)), plan, 4);
    stats.KvContinue(Member("errors", Int(a.errors)), plan, 5);
    stats.KvContinue(Member("loss", Int(a.loss)), plan, 6);
    stats.KvContinue(Member("time", Int(a.time)), plan, 7);
  }

  /** What fits as a whole fits in its parts. */
  lemma Parts(a: Summary)
    requires |Built(a, false, "", "")| < PING_JSON_MAX
    ensures 1 + |Members(Counters(a))| < |Opening(Counters(a))| < PING_JSON_MAX
    ensures 1 + |Members(Basic(a))| < PING_JSON_MAX
    ensures a.pipesize > 1 ==> |Opening(Basic(a))| < PING_JSON_MAX
    ensures 1 + |Members(Rtt(a))| < PING_JSON_MAX
  {
    hide Members, Rtt;
    var rtt := Member("rtt", Obj(Rtt(a)));
    PrefixShorter(Basic(a), Pipe(a));
    PrefixShorter(Counters(a), [rtt]);
    ObjectMember(rtt);
    OneMember(rtt);
  }

  lemma OneMember(m: Member)
    ensures Members([m]) == MemberText(m)
  {
  }

  /** construct_json_statistics. */
  method ConstructStatistics(stats: Buffer, a: Summary)
    requires stats.Valid() && stats.Contents() == "" && |Built(a, false, "", "")| < PING_JSON_MAX
    modifies stats, stats.text
    ensures if a.pipesize > 1 then stats.Expecting(Basic(a) + Pipe(a)) else stats.Open(Basic(a))
  {
    Parts(a);
    hide Members, Counters, Rtt;
    ghost var basic, k := Basic(a), |Counters(a)|;
    assert Take(basic, k) == Counters(a) && Take(basic, k + 1) == basic;
    ConstructCounters(stats, a);
    var rtt := ConstructRtt(a);
    stats.KvObject("rtt", rtt, Rtt(a), basic, k);
    if a.pipesize > 1 {
      ghost var plan := basic + Pipe(a);
      assert Take(plan, k + 1) == basic && Take(plan, k + 2) == plan;
      stats.Continue(basic);
      stats.KvContinue(Member("pipe", Int(a.pipesize)), plan, k + 1);
    }
  }

  /** construct_json_statistics_flood, which follows construct_json_statistics. */
  method ConstructFlood(stats: Buffer, a: Summary, ipg: string, ewma: string)
    requires if a.pipesize > 1 then stats.Expecting(Basic(a) + Pipe(a)) else stats.Open(Basic(a))
    requires |Built(a, true, ipg, ewma)| < PING_JSON_MAX
    modifies stats, stats.text
    ensures stats.Open(Plan(a, ipg, ewma))
  {
    ghost var before, plan := Basic(a) + Pipe(a), Plan(a, ipg, ewma);
    ghost var k := |before|;
    assert Take(plan, k) == before && Take(plan, k + 2) == plan;
    FloodLonger(a, ipg, ewma);
    hide Members, Opening, Basic;
    if a.pipesize < 2 {
      assert before == Basic(a);
      stats.Continue(before);
    }
    stats.KvContinue(Member("ipg", Str(ipg)), plan, k);
    stats.Kv(Member("ewma", Str(ewma)), plan, k + 1);
  }

  /** The JSON part of ping_print_finish for a run with timed replies. */
  method FinishStatistics(stats: Buffer, a: Summary, flood: bool, ipg: string, ewma: string) returns (out: string)
    requires stats.Valid() && stats.Contents() == "" && |Built(a, flood, ipg, ewma)| < PING_JSON_MAX
    modifies stats, stats.text
    ensures out == Printed(a, flood, ipg, ewma) + "\n" && stats.Valid() && stats.Contents() == ""
  {
    hide Members;
    FloodLonger(a, ipg, ewma);
    ConstructStatistics(stats, a);
    if flood {
      ConstructFlood(stats, a, ipg, ewma);
    }
    out := stats.PrintAndReset();
  }

  lemma FloodLonger(a: Summary, ipg: string, ewma: string)
    ensures |Built(a, false, "", "")| <= |Built(a, true, ipg, ewma)|
    ensures |Opening(Basic(a) + Pipe(a))| <= |Built(a, true, ipg, ewma)|
  {
    PrefixShorter(Basic(a) + Pipe(a), Flood(ipg, ewma));
    assert a.pipesize <= 1 ==> Basic(a) + Pipe(a) == Basic(a);
    hide Members;
  }

  lemma NoMemberAfterComma(ms: seq<Member>, t: string)
    requires |ms| > 0 && PlainMembers(ms)
    ensures ReadMembers(Members(ms) + ("," + (" }" + t))) == None
  {
    assert " }" + t == " " + ("}" + t);
    OneBlank("}" + t);
    assert ReadString("}" + t) == None;
    hide ReadString, Members, Skip;
    MembersThen(ms, " }" + t);
  }

  /** A text whose only possible reading as a value is an object, and that has no members to read. */
  lemma NoObject(t: string)
    requires |t| > 1 && t[0] == '{' && t[1] == '"' && ReadMembers(t[1..]) == None
    ensures Read(t) == None
  {
    assert Skip(t) == t && Skip(t[1..]) == t[1..] && Punct(t[1..], '}') == None;
    hide ReadMembers, ReadString, ReadItems, ReadNumber, Skip, Punct;
    assert ReadValue(t) == None;
  }

  /** No object has a comma before its closing bracket, whatever white space or text follows. */
  lemma TrailingComma(ms: seq<Member>, t: string)
    requires |ms| > 0 && PlainMembers(ms)
    ensures Read(Opening(ms) + "}" + t) == None
  {
    hide *;
    FirstQuote(ms);
    OpeningIs(ms);
    NoMemberAfterComma(ms, t);
    var u := Members(ms) + ("," + (" }" + t));
    Regrouped(Members(ms), t);
    NoObject("{" + u);
  }

  lemma OpeningIs(ms: seq<Member>)
    requires |ms| > 0
    ensures Opening(ms) == "{" + Members(ms) + ", "
  {
  }

  lemma Regrouped(a: string, t: string)
    requires |a| > 0
    ensures var u := a + ("," + (" }" + t));
            "{" + a + ", " + "}" + t == "{" + u && ("{" + u)[1..] == u && ("{" + u)[1] == a[0]
  {
    assert ", " + "}" + t == "," + (" }" + t);
    assert "{" + a + ", " + "}" + t == "{" + (a + (", " + "}" + t));
  }

  /**
   * The statistics are a well-formed object exactly when there is no pipe field or the flood
   * fields follow it; otherwise a comma is left before the closing bracket.
   */
  lemma StatisticsReadBack(a: Summary, flood: bool, ipg: string, ewma: string)
    requires PlainMembers(Plan(a, ipg, ewma))
    ensures Read(Printed(a, flood, ipg, ewma) + "\n").Some? <==> a.pipesize <= 1 || flood
    ensures a.pipesize <= 1 || flood ==>
              Read(Printed(a, flood, ipg, ewma) + "\n")
              == Some(Basic(a) + Pipe(a) + if flood then Flood(ipg, ewma) else [])
  {
    var plan := Plan(a, ipg, ewma);
    assert forall m | m in Basic(a) || m in Basic(a) + Pipe(a) :: m in plan;
    assert Skip("\n") == "";
    hide Read, PlainValue, Plain;
    if flood {
      ObjectRead(plan, "\n");
    } else if a.pipesize > 1 {
      TrailingComma(Basic(a) + Pipe(a), "\n");
    } else {
      assert Basic(a) + Pipe(a) + [] == Basic(a);
      ObjectRead(Basic(a), "\n");
    }
  }

  /** The fields that the statistics of a run must have, under the names readers look for. */
  ghost predicate Reports(ms: seq<Member>, a: Summary, flood: bool, ipg: string, ewma: string) {
    && Member("host", Str(a.host)) in ms
    && Member("transmitted", Int(a.transmitted)) in ms && Member("received", Int(a.received)) in ms
    && Member("duplicates", Int(a.duplicates)) in ms && Member("corrupted", Int(a.corrupted)) in ms
    && Member("errors", Int(a.errors)) in ms && Member("loss", Int(a.loss)) in ms
    && Member("time", Int(a.time)) in ms
    && (exists rtt: seq<Member> :: Member("rtt", Obj(rtt)) in ms && |rtt| == 4
          && Member("min", Str(a.rttMin)) in rtt && Member("avg", Str(a.rttAvg)) in rtt
          && Member("max", Str(a.rttMax)) in rtt && Member("mdev", Str(a.rttMdev)) in rtt)
    && (a.pipesize > 1 ==> Member("pipe", Int(a.pipesize)) in ms)
    && (flood ==> Member("ipg", Str(ipg)) in ms && Member("ewma", Str(ewma)) in ms)
    && |ms| == 9 + (if a.pipesize > 1 then 1 else 0) + (if flood then 2 else 0)
  }

  /** What is printed, when it can be read, reports exactly these fields, each with its own value. */
  lemma StatisticsReported(a: Summary, flood: bool, ipg: string, ewma: string)
    requires PlainMembers(Plan(a, ipg, ewma)) && (a.pipesize <= 1 || flood)
    ensures var r := Read(Printed(a, flood, ipg, ewma) + "\n");
            r.Some? && Reports(r.value, a, flood, ipg, ewma)
  {
    hide *;
    StatisticsReadBack(a, flood, ipg, ewma);
    var more := if flood then Flood(ipg, ewma) else [];
    assert Basic(a) + Pipe(a) + more == Basic(a) + (Pipe(a) + more);
    BasicReports(a);
    TailReports(a, flood, ipg, ewma);
    Assembled(Basic(a), Pipe(a) + more, a, flood, ipg, ewma);
  }

  lemma Assembled(basic: seq<Member>, tail: seq<Member>, a: Summary, flood: bool, ipg: string, ewma: string)
    requires BasicFields(basic, a) && TailFields(tail, a, flood, ipg, ewma)
    ensures Reports(basic + tail, a, flood, ipg, ewma)
  {
    var ms := basic + tail;
    RttReports(a);
    hide Rtt;
    assert forall i | 0 <= i < 9 :: ms[i] == basic[i];
    assert forall i | 0 <= i < |tail| :: ms[9 + i] == tail[i];
  }

  predicate BasicFields(ms: seq<Member>, a: Summary) {
    && |ms| == 9
    && ms[0] == Member("host", Str(a.host)) && ms[1] == Member("transmitted", Int(a.transmitted))
    && ms[2] == Member("received", Int(a.received)) && ms[3] == Member("duplicates", Int(a.duplicates))
    && ms[4] == Member("corrupted", Int(a.corrupted)) && ms[5] == Member("errors", Int(a.errors))
    && ms[6] == Member("loss", Int(a.loss)) && ms[7] == Member("time", Int(a.time))
    && ms[8] == Member("rtt", Obj(Rtt(a)))
  }

  predicate TailFields(tail: seq<Member>, a: Summary, flood: bool, ipg: string, ewma: string) {
    && |tail| == (if a.pipesize > 1 then 1 else 0) + (if flood then 2 else 0)
    && (a.pipesize > 1 ==> tail[0] == Member("pipe", Int(a.pipesize)))
    && (flood ==> tail[|tail| - 2] == Member("ipg", Str(ipg)) && tail[|tail| - 1] == Member("ewma", Str(ewma)))
  }

  lemma RttReports(a: Summary)
    ensures var rtt := Rtt(a);
            && |rtt| == 4
            && Member("min", Str(a.rttMin)) in rtt && Member("avg", Str(a.rttAvg)) in rtt
            && Member("max", Str(a.rttMax)) in rtt && Member("mdev", Str(a.rttMdev)) in rtt
  {
    var rtt := Rtt(a);
    assert rtt[0] == Member("min", Str(a.rttMin)) && rtt[1] == Member("avg", Str(a.rttAvg));
    assert rtt[2] == Member("max", Str(a.rttMax)) && rtt[3] == Member("mdev", Str(a.rttMdev));
  }

  lemma BasicReports(a: Summary)
    ensures BasicFields(Basic(a), a)
  {
    hide Rtt;
  }

  lemma TailReports(a: Summary, flood: bool, ipg: string, ewma: string)
    ensures TailFields(Pipe(a) + if flood then Flood(ipg, ewma) else [], a, flood, ipg, ewma)
  {
  }
}
