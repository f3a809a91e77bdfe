/** The texts both parsers of CPU lists read, written out item by item with white space around numbers and dashes,
    plus signs and leading zeros: what each denotes, and that no other text is read. */
module CpuTexts {
  import opened Text
  import opened CpuList
  import opened MicaCpus

  /** One comma-separated item: white space alone, a number, or two numbers with a dash in between. */
  datatype Item =
    | Gap(blank: string)
    | One(pre: string, cpu: Numeral, post: string)
    | Many(pre: string, lo: Numeral, left: string, right: string, hi: Numeral, post: string)
  {
    predicate Valid() {
      match this
      case Gap(blank) => Blanks(blank)
      case One(pre, cpu, post) => Blanks(pre) && Blanks(post) && cpu.n <= MAX_INT
      case Many(pre, lo, left, right, hi, post) =>
        Blanks(pre) && Blanks(left) && Blanks(right) && Blanks(post) && lo.n <= MAX_INT && hi.n <= MAX_INT
    }

    function Text(): string {
      match this
      case Gap(blank) => blank
      case One(pre, cpu, post) => pre + cpu.Text() + post
      case Many(pre, lo, left, right, hi, post) => pre + lo.Text() + left + "-" + right + hi.Text() + post
    }

    predicate Reversed() {
      Many? && lo.n > hi.n
    }

    /** A range that ends at the largest int. */
    predicate Unending() {
      Many? && lo.n <= hi.n == MAX_INT
    }

    function Cpus(): set<int> {
      match this
      case Gap(_) => {}
      case One(_, cpu, _) => {cpu.n}
      case Many(_, lo, _, _, hi, _) => Interval(lo.n, hi.n)
    }

    function List(): seq<int> {
      match this
      case Gap(_) => []
      case One(_, cpu, _) => [cpu.n]
      case Many(_, lo, _, _, hi, _) => Counting(lo.n, hi.n)
    }

    /** The group it is read as. */
    function Group(): CpuList.Group {
      match this
      case Gap(_) => Blank
      case One(_, cpu, _) => Single(cpu.n)
      case Many(_, lo, _, _, hi, _) => if lo.n > hi.n then Bad else Span(lo.n, hi.n)
    }

    /** The same item without white space. */
    function Plain(): Item {
      match this
      case Gap(_) => Gap("")
      case One(_, cpu, _) => One("", cpu, "")
      case Many(_, lo, _, _, hi, _) => Many("", lo, "", "", hi, "")
    }
  }

  // ---------- one item ----------

  lemma BlanksPlain(b: string)
    requires Blanks(b)
    ensures ',' !in b && '-' !in b
  {
  }

  lemma NumeralPlain(num: Numeral)
    ensures num.Text() != "" && ',' !in num.Text() && '-' !in num.Text() && Trimmed(num.Text())
  {
    NumeralDigits(num);
    var t := num.Text();
    assert forall i | 0 <= i < |t| :: t[i] == '+' || IsDigit(t[i]);
  }

  lemma ItemReads(item: Item)
    requires item.Valid()
    ensures ReadGroup(item.Text()) == item.Group() && ',' !in item.Text()
  {
    match item
    case Gap(blank) =>
      TrimIs(blank, "", "");
      assert blank + "" + "" == blank;
      GroupRead(blank);
      BlanksPlain(blank);
    case One(pre, cpu, post) =>
      OneReads(pre, cpu, post);
    case Many(pre, lo, left, right, hi, post) =>
      ManyReads(pre, lo, left, right, hi, post);
  }

  lemma OneReads(pre: string, cpu: Numeral, post: string)
    requires One(pre, cpu, post).Valid()
    ensures ReadGroup(One(pre, cpu, post).Text()) == Single(cpu.n) && ',' !in One(pre, cpu, post).Text()
  {
    BlanksPlain(pre);
    BlanksPlain(post);
    NumeralPlain(cpu);
    TrimIs(pre, cpu.Text(), post);
    AtoiNat(cpu);
    GroupRead(pre + cpu.Text() + post);
  }

  lemma ManyReads(pre: string, lo: Numeral, left: string, right: string, hi: Numeral, post: string)
    requires Many(pre, lo, left, right, hi, post).Valid()
    ensures var item := Many(pre, lo, left, right, hi, post);
      ReadGroup(item.Text()) == item.Group() && ',' !in item.Text()
  {
    NumeralPlain(lo);
    NumeralPlain(hi);
    AtoiNat(lo);
    AtoiNat(hi);
    EndsRead(pre, lo.Text(), left, right, hi.Text(), post, lo.n, hi.n);
  }

  /** A number as a trimmed text without dash or comma. */
  predicate Plainly(t: string, n: int) {
    t != "" && Trimmed(t) && '-' !in t && ',' !in t && Atoi(t).Some? && Atoi(t).value == n
  }

  lemma EndsRead(pre: string, lo: string, left: string, right: string, hi: string, post: string, m: int, n: int)
    requires Blanks(pre) && Blanks(left) && Blanks(right) && Blanks(post) && Plainly(lo, m) && Plainly(hi, n)
    ensures var text := pre + lo + left + "-" + right + hi + post;
      ReadGroup(text) == (if m > n then Bad else Span(m, n)) && ',' !in text
  {
    var a, b := lo + left, right + hi;
    BlanksPlain(pre);
    BlanksPlain(left);
    BlanksPlain(right);
    BlanksPlain(post);
    Regroup(pre, "", lo, left, right, hi, "", post);
    SameEnds(lo, left, right, hi);
    CoreTrims(pre, a, b, post);
    TrimIs("", lo, left);
    TrimIs(right, hi, "");
    NoneAdded(lo, left, right, hi);
    RangeGroup(pre + (a + "-" + b) + post, a, b);
  }

  lemma SameEnds(lo: string, left: string, right: string, hi: string)
    ensures ("" + lo + left) + "-" + (right + hi + "") == (lo + left) + "-" + (right + hi)
  {
  }

  lemma NoneAdded(lo: string, left: string, right: string, hi: string)
    ensures "" + lo + left == lo + left && right + hi + "" == right + hi
  {
  }

  lemma CoreTrims(pre: string, a: string, b: string, post: string)
    requires Blanks(pre) && Blanks(post) && a != "" && b != ""
    requires a[0] as int !in WHITE_SPACE && b[|b| - 1] as int !in WHITE_SPACE
    ensures TrimSpace(pre + (a + "-" + b) + post) == a + "-" + b
  {
    var core := a + "-" + b;
    assert core[0] == a[0] && core[|core| - 1] == b[|b| - 1];
    TrimIs(pre, core, post);
  }

  // ---------- every group that can be read is such an item ----------

  lemma {:induction false} JoinSplit(s: string, sep: char)
    ensures Join(Split(s, sep), sep) == s
  {
    if s != "" {
      JoinSplit(s[1..], sep);
      var rest := Split(s[1..], sep);
      assert s == [s[0]] + s[1..];
      if s[0] == sep {
        JoinNext(rest, sep);
      } else {
        JoinHead(s[0], rest, sep);
      }
    }
  }

  lemma JoinNext(rest: seq<string>, sep: char)
    requires rest != []
    ensures Join([""] + rest, sep) == [sep] + Join(rest, sep)
  {
    assert ([""] + rest)[1..] == rest;
  }

  lemma JoinHead(c: char, rest: seq<string>, sep: char)
    requires rest != []
    ensures Join([[c] + rest[0]] + rest[1..], sep) == [c] + Join(rest, sep)
  {
    var longer := [[c] + rest[0]] + rest[1..];
    assert longer[1..] == rest[1..];
  }

  lemma BlanksApart(a: string, b: string)
    requires Blanks(a) && Blanks(b)
    ensures Blanks(a + b)
  {
  }

  lemma ItemOf(part: string) returns (item: Item)
    requires !ReadGroup(part).Bad?
    ensures item.Valid() && item.Text() == part && item.Group() == ReadGroup(part)
  {
    var g := TrimSpace(part);
    var pre, post := TrimSplits(part);
    GroupRead(part);
    if g == "" {
      BlanksApart(pre, post);
      item := Gap(part);
      assert part == pre + post;
    } else if '-' in g {
      item := ManyOf(part, pre, g, post);
    } else {
      var cpu := AtoiSpelled(g);
      item := One(pre, cpu, post);
    }
  }

  lemma Ends(part: string, g: string) returns (ends: seq<string>)
    requires g == TrimSpace(part) && '-' in g && !ReadGroup(part).Bad?
    ensures |ends| == 2 && g == ends[0] + "-" + ends[1] && '-' !in ends[0] && '-' !in ends[1]
  {
    ends := Split(g, '-');
    GroupRead(part);
    assert ends[0] in ends && ends[1] in ends;
    JoinSplit(g, '-');
    TwoJoined(ends, '-');
  }

  lemma ManyOf(part: string, pre: string, g: string, post: string) returns (item: Item)
    requires part == pre + g + post && Blanks(pre) && Blanks(post) && g == TrimSpace(part) && '-' in g
    requires !ReadGroup(part).Bad?
    ensures item.Valid() && item.Text() == part && item.Group() == ReadGroup(part)
  {
    var ends := Ends(part, g);
    RangeGroup(part, ends[0], ends[1]);
    TrimKeepsOut(ends[0], '-');
    TrimKeepsOut(ends[1], '-');
    var a, left := TrimSplits(ends[0]);
    var right, b := TrimSplits(ends[1]);
    var lo := AtoiSpelled(TrimSpace(ends[0]));
    var hi := AtoiSpelled(TrimSpace(ends[1]));
    BlanksApart(pre, a);
    BlanksApart(b, post);
    item := Many(pre + a, lo, left, right, hi, b + post);
    Regroup(pre, a, lo.Text(), left, right, hi.Text(), b, post);
    AtoiFits(TrimSpace(ends[0]));
    AtoiFits(TrimSpace(ends[1]));
  }

  lemma AtoiFits(s: string)
    ensures Atoi(s).Some? ==> Atoi(s).value <= MAX_INT
  {
  }

  lemma TwoJoined(parts: seq<string>, sep: char)
    requires |parts| == 2
    ensures Join(parts, sep) == parts[0] + [sep] + parts[1]
  {
    assert parts[1..] == [parts[1]];
  }

  lemma Regroup(pre: string, a: string, lo: string, left: string, right: string, hi: string, b: string, post: string)
    ensures pre + ((a + lo + left) + "-" + (right + hi + b)) + post
         == (pre + a) + lo + left + "-" + right + hi + (b + post)
    ensures pre + "" == pre && "" + post == post
  {
  }

  // ---------- whole texts ----------

  ghost predicate AllValid(items: seq<Item>) {
    forall i | 0 <= i < |items| :: items[i].Valid()
  }

  /** The items with commas in between. */
  function Written(items: seq<Item>): string
    requires items != []
  {
    if |items| == 1 then items[0].Text() else items[0].Text() + "," + Written(items[1..])
  }

  function Denoted(items: seq<Item>): set<int> {
    if items == [] then {} else items[0].Cpus() + Denoted(items[1..])
  }

  function Listed(items: seq<Item>): seq<int> {
    if items == [] then [] else items[0].List() + Listed(items[1..])
  }

  function Groups(items: seq<Item>): (gs: seq<Group>)
    ensures |gs| == |items| && forall i | 0 <= i < |items| :: gs[i] == items[i].Group()
  {
    seq(|items|, i requires 0 <= i < |items| => items[i].Group())
  }

  lemma {:induction false} WrittenReads(items: seq<Item>)
    requires items != [] && AllValid(items)
    ensures GroupsOf(Split(Written(items), ',')) == Groups(items)
  {
    ItemReads(items[0]);
    if |items| == 1 {
      SplitWhole(items[0].Text(), ',');
    } else {
      WrittenReads(items[1..]);
      SplitAfter(items[0].Text(), ',', Written(items[1..]));
      ConsReads(items, Split(Written(items[1..]), ','));
    }
  }

  lemma ConsReads(items: seq<Item>, rest: seq<string>)
    requires items != [] && ReadGroup(items[0].Text()) == items[0].Group() && GroupsOf(rest) == Groups(items[1..])
    ensures GroupsOf([items[0].Text()] + rest) == Groups(items)
  {
    GroupsCons(items[0].Text(), rest);
    GroupsHead(items);
  }

  lemma GroupsHead(items: seq<Item>)
    requires items != []
    ensures Groups(items) == [items[0].Group()] + Groups(items[1..])
  {
  }

  lemma GroupsCons(part: string, parts: seq<string>)
    ensures GroupsOf([part] + parts) == [ReadGroup(part)] + GroupsOf(parts)
  {
  }

  lemma {:induction false} ItemsOf(parts: seq<string>) returns (items: seq<Item>)
    requires parts != [] && forall i | 0 <= i < |parts| :: !ReadGroup(parts[i]).Bad?
    ensures |items| == |parts| && AllValid(items) && Written(items) == Join(parts, ',')
  {
    var first := ItemOf(parts[0]);
    if |parts| == 1 {
      items := [first];
    } else {
      var rest := ItemsOf(parts[1..]);
      items := [first] + rest;
      assert items[1..] == rest;
    }
  }

  lemma {:induction false} DenotedGroups(items: seq<Item>)
    ensures UnionOf(Groups(items)) == Denoted(items)
  {
    if items != [] {
      UnionOfCons(Groups(items));
      assert Groups(items)[1..] == Groups(items[1..]);
      DenotedGroups(items[1..]);
      CpusRead(items[0]);
    }
  }

  lemma CpusRead(item: Item)
    ensures item.Group().Cpus() == item.Cpus()
  {
  }

  ghost predicate AllForward(items: seq<Item>) {
    forall i | 0 <= i < |items| :: !items[i].Reversed() && !items[i].Unending()
  }

  lemma WrittenMeans(items: seq<Item>)
    requires items != [] && AllValid(items)
    ensures Meaning(Written(items)) == Collect(Groups(items), {})
  {
    WrittenReads(items);
    if Written(items) == "" {
      OnlyGap(items);
    }
  }

  lemma GroupsCollect(items: seq<Item>)
    ensures Collect(Groups(items), {}).Parsed? <==> AllForward(items)
    ensures AllForward(items) ==> Collect(Groups(items), {}) == Parsed(Denoted(items))
  {
    var gs := Groups(items);
    CollectMeaning(gs, {});
    DenotedGroups(items);
    assert {} + Denoted(items) == Denoted(items);
    forall i | 0 <= i < |items|
      ensures gs[i].Readable() <==> !items[i].Reversed() && !items[i].Unending()
    {
    }
  }

  /** Parsing succeeds on items exactly when no range is reversed or ends at the largest int, and then gives the
      CPUs of the items, whatever the white space. Items of white space alone are skipped. */
  lemma ItemsMean(items: seq<Item>)
    requires items != [] && AllValid(items)
    ensures Meaning(Written(items)).Parsed? <==> AllForward(items)
    ensures AllForward(items) ==> Meaning(Written(items)) == Parsed(Denoted(items))
  {
    WrittenMeans(items);
    GroupsCollect(items);
  }

  lemma OnlyGap(items: seq<Item>)
    requires items != [] && AllValid(items) && Written(items) == ""
    ensures items == [Gap("")] && AllForward(items) && Denoted(items) == {}
  {
    match items[0] {
      case Gap(_) =>
      case One(_, cpu, _) => NumeralPlain(cpu);
      case Many(_, lo, _, _, _, _) => NumeralPlain(lo);
    }
  }

  lemma {:induction false} CollectFirst(gs: seq<Group>, i: nat, seen: set<int>)
    requires i < |gs| && !gs[i].Readable() && forall j | 0 <= j < i :: gs[j].Readable()
    ensures Collect(gs, seen) == if gs[i].Bad? then Malformed else NeverReturns
    decreases i
  {
    if i > 0 {
      CollectFirst(gs[1..], i - 1, seen + gs[0].Cpus());
    }
  }

  /** The first item that cannot be read decides: a reversed range is an error, an unending one is read for ever. */
  lemma FirstFails(items: seq<Item>, i: nat)
    requires AllValid(items) && i < |items| && (items[i].Reversed() || items[i].Unending()) && AllForward(items[..i])
    ensures Meaning(Written(items)) == if items[i].Reversed() then Malformed else NeverReturns
  {
    WrittenMeans(items);
    ReadableBefore(items, i);
    CollectFirst(Groups(items), i, {});
  }

  lemma ReadableBefore(items: seq<Item>, i: nat)
    requires i <= |items| && AllForward(items[..i])
    ensures forall j | 0 <= j < i :: Groups(items)[j].Readable()
  {
    forall j | 0 <= j < i
      ensures Groups(items)[j].Readable()
    {
      assert items[j] == items[..i][j];
    }
  }

  /** A text is read exactly when it consists of such items. */
  lemma ReadIff(s: string)
    ensures Meaning(s).Parsed? <==> exists items | items != [] && AllValid(items) && AllForward(items) :: Written(items) == s
  {
    if Meaning(s).Parsed? {
      var items := TextItems(s);
      ItemsMean(items);
      assert AllForward(items);
    }
    forall items: seq<Item> | items != [] && AllValid(items) && AllForward(items) && Written(items) == s
      ensures Meaning(s).Parsed?
    {
      ItemsMean(items);
    }
  }

  lemma TextItems(s: string) returns (items: seq<Item>)
    requires Meaning(s).Parsed?
    ensures items != [] && AllValid(items) && Written(items) == s
  {
    var parts := Split(s, ',');
    CollectMeaning(GroupsOf(parts), {});
    if s == "" {
      items := [Gap("")];
    } else {
      forall i | 0 <= i < |parts|
        ensures !ReadGroup(parts[i]).Bad?
      {
        assert GroupsOf(parts)[i].Readable();
      }
      items := ItemsOf(parts);
      JoinSplit(s, ',');
    }
  }

  // ---------- the second parser ----------

  lemma ListRead(item: Item)
    requires !item.Reversed()
    ensures GroupList(item.Group()) == item.List()
  {
  }

  lemma ListFromCons(gs: seq<Group>, seen: seq<int>)
    requires gs != [] && !gs[0].Endless()
    ensures ListFrom(gs, seen) == ListFrom(gs[1..], seen + GroupList(gs[0]))
  {
  }

  lemma Apart(a: seq<int>, b: seq<int>, c: seq<int>)
    ensures a + b + c == a + (b + c) && a + [] == a
  {
  }

  lemma GroupsTail(items: seq<Item>)
    requires items != []
    ensures Groups(items)[1..] == Groups(items[1..])
  {
  }

  lemma {:induction false} ListFromItems(items: seq<Item>, seen: seq<int>)
    requires AllForward(items)
    ensures ListFrom(Groups(items), seen) == Parsed(seen + Listed(items))
  {
    if items == [] {
      Apart(seen, [], []);
    } else {
      ListRead(items[0]);
      ListFromCons(Groups(items), seen);
      GroupsTail(items);
      ListFromItems(items[1..], seen + items[0].List());
      Apart(seen, items[0].List(), Listed(items[1..]));
    }
  }

  lemma {:induction false} ListFromUnending(items: seq<Item>, seen: seq<int>)
    requires exists i :: 0 <= i < |items| && items[i].Unending()
    ensures ListFrom(Groups(items), seen) == NeverReturns
  {
    if !items[0].Unending() {
      var i :| 0 <= i < |items| && items[i].Unending();
      assert items[1..][i - 1].Unending();
      ListFromUnending(items[1..], seen + GroupList(items[0].Group()));
      assert Groups(items)[1..] == Groups(items[1..]);
    }
  }

  ghost predicate AllNumbers(items: seq<Item>) {
    forall i | 0 <= i < |items| :: !items[i].Gap? && !items[i].Reversed()
  }

  /** The second parser refuses white space alone between commas and reversed ranges; otherwise it lists the CPUs in
      order, unless a range ends at the largest int. */
  lemma ItemsList(items: seq<Item>)
    requires items != [] && AllValid(items) && Written(items) != ""
    ensures !AllNumbers(items) ==> ListMeaning(Written(items)) == Malformed
    ensures AllNumbers(items) && AllForward(items) ==> ListMeaning(Written(items)) == Parsed(Listed(items))
    ensures AllNumbers(items) && !AllForward(items) ==> ListMeaning(Written(items)) == NeverReturns
  {
    WrittenReads(items);
    var gs := Groups(items);
    NumbersAreGood(items);
    NoFault(Written(items), gs);
    if AllForward(items) {
      ListFromItems(items, []);
      assert [] + Listed(items) == Listed(items);
    } else if AllNumbers(items) {
      ListFromUnending(items, []);
    }
  }

  lemma NumbersAreGood(items: seq<Item>)
    ensures AllGood(Groups(items)) <==> AllNumbers(items)
  {
    var gs := Groups(items);
    forall i | 0 <= i < |items|
      ensures (gs[i].Blank? || gs[i].Bad?) <==> (items[i].Gap? || items[i].Reversed())
    {
    }
  }

  // ---------- white space does not matter ----------

  function AllPlain(items: seq<Item>): (ps: seq<Item>)
    ensures |ps| == |items| && forall i | 0 <= i < |items| :: ps[i] == items[i].Plain()
  {
    seq(|items|, i requires 0 <= i < |items| => items[i].Plain())
  }

  lemma PlainGroups(items: seq<Item>)
    requires AllValid(items)
    ensures AllValid(AllPlain(items)) && Groups(AllPlain(items)) == Groups(items)
  {
  }

  /** With all white space taken out of its items a text means the same to both parsers. */
  lemma PlainMeansTheSame(items: seq<Item>)
    requires items != [] && AllValid(items) && forall i | 0 <= i < |items| :: !items[i].Gap?
    ensures Meaning(Written(AllPlain(items))) == Meaning(Written(items))
    ensures ListMeaning(Written(AllPlain(items))) == ListMeaning(Written(items))
  {
    PlainGroups(items);
    WrittenReads(items);
    WrittenReads(AllPlain(items));
    NotEmpty(items);
    NotEmpty(AllPlain(items));
    SameReading(Written(items), Written(AllPlain(items)));
  }

  lemma SameReading(s: string, t: string)
    requires s != "" && t != "" && GroupsOf(Split(s, ',')) == GroupsOf(Split(t, ','))
    ensures Meaning(s) == Meaning(t) && ListMeaning(s) == ListMeaning(t)
  {
  }

  lemma NotEmpty(items: seq<Item>)
    requires items != [] && !items[0].Gap?
    ensures Written(items) != ""
  {
    NumeralPlain(if items[0].One? then items[0].cpu else items[0].lo);
    assert items[0].Text() != "";
  }

  /** Two numbers with any white space around them; "0, 2" is such a text. */
  lemma TwoNumbers(pre: string, m: Numeral, mid: string, left: string, n: Numeral, post: string)
    requires Blanks(pre) && Blanks(mid) && Blanks(left) && Blanks(post) && m.n <= MAX_INT && n.n <= MAX_INT
    ensures var s := (pre + m.Text() + mid) + "," + (left + n.Text() + post);
      Meaning(s) == Parsed({m.n, n.n}) && ListMeaning(s) == Parsed([m.n, n.n])
  {
    var items := Pair(One(pre, m, mid), One(left, n, post));
    BothRead((pre + m.Text() + mid) + "," + (left + n.Text() + post), items, {m.n, n.n}, [m.n, n.n]);
  }

  lemma Pair(a: Item, b: Item) returns (items: seq<Item>)
    requires a.One? && b.One? && a.Valid() && b.Valid()
    ensures items != [] && AllValid(items) && AllForward(items) && AllNumbers(items)
    ensures Written(items) == a.Text() + "," + b.Text()
    ensures Denoted(items) == {a.cpu.n, b.cpu.n} && Listed(items) == [a.cpu.n, b.cpu.n]
  {
    items := [a, b];
    TwoItems(a, b);
  }

  lemma BothRead(s: string, items: seq<Item>, S: set<int>, list: seq<int>)
    requires items != [] && AllValid(items) && AllForward(items) && AllNumbers(items)
    requires s == Written(items) && Denoted(items) == S && Listed(items) == list
    ensures Meaning(s) == Parsed(S) && ListMeaning(s) == Parsed(list)
  {
    NotEmpty(items);
    ItemsMean(items);
    ItemsList(items);
  }

  lemma TwoItems(a: Item, b: Item)
    ensures Written([a, b]) == a.Text() + "," + b.Text()
    ensures Denoted([a, b]) == a.Cpus() + b.Cpus() && Listed([a, b]) == a.List() + b.List()
  {
    OneItem(b);
    assert [a, b][1..] == [b];
  }

  lemma OneItem(a: Item)
    ensures Written([a]) == a.Text() && Denoted([a]) == a.Cpus() && Listed([a]) == a.List()
  {
    assert [a][1..] == [];
    assert a.Cpus() + {} == a.Cpus() && a.List() + [] == a.List();
  }

  /** A range with any white space in it; "1 - 3" is such a text. */
  lemma OneRange(pre: string, lo: Numeral, left: string, right: string, hi: Numeral, post: string)
    requires Many(pre, lo, left, right, hi, post).Valid() && lo.n <= hi.n < MAX_INT
    ensures var s := pre + lo.Text() + left + "-" + right + hi.Text() + post;
      && Meaning(s).Parsed? && (forall x :: x in Meaning(s).cpus <==> lo.n <= x <= hi.n)
      && ListMeaning(s) == Parsed(Counting(lo.n, hi.n))
  {
    var item := Many(pre, lo, left, right, hi, post);
    OneItem(item);
    BothRead(item.Text(), [item], item.Cpus(), item.List());
  }
}
