/**
 `stableStringify` is canonical: two well-formed values print alike exactly when they are the
 same value with objects read as finite maps.
 */
module JsonCanonical {
  import opened Json

  // ---- The printed text is uniquely readable --------------------------------------------

  /** What may follow a value in printed text. */
  predicate Delimited(r: Text) {
    r == [] || r[0] == COMMA || r[0] == CLOSE_BRACKET || r[0] == CLOSE_BRACE
  }

  /** The first code unit tells the kinds of value apart. */
  predicate Opens(v: Json, u: CodeUnit) {
    match v
    case Null => u == 110
    case Bool(b) => u == if b then 116 else 102
    case Num(_) => u == 45 || 48 <= u <= 57
    case Str(_) => u == QUOTE
    case Arr(_) => u == OPEN_BRACKET
    case Obj(_) => u == OPEN_BRACE
  }

  lemma FirstUnit(v: Json)
    requires WellFormed(v)
    ensures StableStringify(v) != [] && Opens(v, StableStringify(v)[0])
  {
  }

  /** How many number units the text starts with. */
  function NumberSpan(t: Text): nat {
    if t == [] || !NumberUnit(t[0]) then 0 else 1 + NumberSpan(t[1..])
  }

  lemma {:induction false} TokenIsTheSpan(t: Text, r: Text)
    requires Delimited(r) && forall i :: 0 <= i < |t| ==> NumberUnit(t[i])
    ensures NumberSpan(t + r) == |t|
  {
    if t == [] {
      assert t + r == r;
    } else {
      TokenIsTheSpan(t[1..], r);
      assert (t + r)[1..] == t[1..] + r;
    }
  }

  lemma NumberIsUniquelyReadable(t: Text, u: Text, r: Text, q: Text)
    requires forall i :: 0 <= i < |t| ==> NumberUnit(t[i])
    requires forall i :: 0 <= i < |u| ==> NumberUnit(u[i])
    requires Delimited(r) && Delimited(q) && t + r == u + q
    ensures t == u && r == q
  {
    TokenIsTheSpan(t, r);
    TokenIsTheSpan(u, q);
    assert (t + r)[..|t|] == t && (u + q)[..|u|] == u;
    assert (t + r)[|t|..] == r && (u + q)[|u|..] == q;
  }

  lemma DropPrefix(p: Text, a: Text, b: Text)
    requires p + a == p + b
    ensures a == b
  {
    assert (p + a)[|p|..] == a && (p + b)[|p|..] == b;
  }

  /** The printed items from some position on, with the closing bracket and what follows. */
  function ItemsThen(v: Json, xs: seq<Json>, r: Text): Text
    requires forall i :: 0 <= i < |xs| ==> xs[i] < v
  {
    PrintItems(v, xs) + ([CLOSE_BRACKET] + r)
  }

  function AfterItem(v: Json, xs: seq<Json>, r: Text): Text
    requires xs != [] && forall i :: 0 <= i < |xs| ==> xs[i] < v
  {
    if |xs| == 1 then [CLOSE_BRACKET] + r else [COMMA] + ItemsThen(v, xs[1..], r)
  }

  lemma ItemsThenUnfolds(v: Json, xs: seq<Json>, r: Text)
    requires xs != [] && forall i :: 0 <= i < |xs| ==> xs[i] < v
    ensures ItemsThen(v, xs, r) == StableStringify(xs[0]) + AfterItem(v, xs, r)
  {
    var x, end := StableStringify(xs[0]), [CLOSE_BRACKET] + r;
    if |xs| == 1 {
      assert PrintItems(v, xs) == x;
    } else {
      var p := PrintItems(v, xs[1..]);
      assert (x + ([COMMA] + p)) + end == x + ([COMMA] + (p + end));
    }
  }

  function MembersThen(v: Json, es: seq<Entry>, r: Text): Text
    requires forall i :: 0 <= i < |es| ==> es[i].val < v
  {
    PrintMembers(v, es) + ([CLOSE_BRACE] + r)
  }

  function AfterMember(v: Json, es: seq<Entry>, r: Text): Text
    requires es != [] && forall i :: 0 <= i < |es| ==> es[i].val < v
  {
    if |es| == 1 then [CLOSE_BRACE] + r else [COMMA] + MembersThen(v, es[1..], r)
  }

  lemma MembersThenUnfolds(v: Json, es: seq<Entry>, r: Text)
    requires es != [] && forall i :: 0 <= i < |es| ==> es[i].val < v
    ensures MembersThen(v, es, r) == Quote(es[0].key) + ([COLON] + (StableStringify(es[0].val) + AfterMember(v, es, r)))
  {
    var k, x, end := Quote(es[0].key), StableStringify(es[0].val), [CLOSE_BRACE] + r;
    var sep := if |es| == 1 then [] else [COMMA] + PrintMembers(v, es[1..]);
    assert sep + end == AfterMember(v, es, r);
    Regroup(k, [COLON], x, sep, end);
  }

  lemma Regroup(a: Text, b: Text, c: Text, d: Text, e: Text)
    ensures (a + b + c + d) + e == a + (b + (c + (d + e)))
  {
  }

  lemma ItemsHead(v: Json, xs: seq<Json>, r: Text)
    requires AllWellFormed(xs) && forall i :: 0 <= i < |xs| ==> xs[i] < v
    ensures ItemsThen(v, xs, r)[0] == CLOSE_BRACKET <==> xs == []
    ensures xs == [] ==> ItemsThen(v, xs, r) == [CLOSE_BRACKET] + r
  {
    if xs != [] {
      ItemsThenUnfolds(v, xs, r);
      FirstUnit(xs[0]);
    }
  }

  lemma MembersHead(v: Json, es: seq<Entry>, r: Text)
    requires forall i :: 0 <= i < |es| ==> es[i].val < v
    ensures MembersThen(v, es, r)[0] == CLOSE_BRACE <==> es == []
    ensures es == [] ==> MembersThen(v, es, r) == [CLOSE_BRACE] + r
  {
    if es != [] {
      MembersThenUnfolds(v, es, r);
    }
  }

  /** Two member lists agree on keys and on the meaning of their values. */
  ghost predicate SameMembers(es: seq<Entry>, fs: seq<Entry>) {
    |es| == |fs| && forall i :: 0 <= i < |es| ==> es[i].key == fs[i].key && NormOf(es[i].val) == NormOf(fs[i].val)
  }

  ghost predicate AllWellFormed(xs: seq<Json>) {
    forall i :: 0 <= i < |xs| ==> WellFormed(xs[i])
  }

  ghost predicate ValuesWellFormed(es: seq<Entry>) {
    forall i :: 0 <= i < |es| ==> WellFormed(es[i].val)
  }

  lemma SameFirstUnit(v: Json, w: Json, u: CodeUnit)
    requires Opens(v, u) && Opens(w, u)
    ensures match v
            case Null => w.Null?
            case Bool(b) => w == v
            case Num(_) => w.Num?
            case Str(_) => w.Str?
            case Arr(_) => w.Arr?
            case Obj(_) => w.Obj?
  {
  }

  lemma {:induction false} UniquelyReadable(v: Json, w: Json, r: Text, q: Text)
    requires WellFormed(v) && WellFormed(w) && Delimited(r) && Delimited(q)
    requires StableStringify(v) + r == StableStringify(w) + q
    ensures NormOf(v) == NormOf(w) && r == q
    decreases v, 2, 0
  {
    FirstUnit(v);
    FirstUnit(w);
    var a, b := StableStringify(v), StableStringify(w);
    assert (a + r)[0] == a[0] && (b + q)[0] == b[0];
    SameFirstUnit(v, w, a[0]);
    match v
    case Null => DropPrefix(a, r, q);
    case Bool(_) => DropPrefix(a, r, q);
    case Num(t) => NumberIsUniquelyReadable(t, w.token, r, q);
    case Str(s) => QuoteIsUniquelyReadable(s, w.s, r, q);
    case Arr(_) => ArrayUniquelyReadable(v, w, r, q);
    case Obj(_) => ObjectUniquelyReadable(v, w, r, q);
  }

  lemma {:induction false} ArrayUniquelyReadable(v: Json, w: Json, r: Text, q: Text)
    requires v.Arr? && w.Arr? && WellFormed(v) && WellFormed(w)
    requires StableStringify(v) + r == StableStringify(w) + q
    ensures NormOf(v) == NormOf(w) && r == q
    decreases v, 1, 0
  {
    ArrayText(v, r);
    ArrayText(w, q);
    DropPrefix([OPEN_BRACKET], ItemsThen(v, v.items, r), ItemsThen(w, w.items, q));
    ItemsUniquelyReadable(v, v.items, w, w.items, r, q);
  }

  lemma ArrayText(v: Json, r: Text)
    requires v.Arr?
    ensures StableStringify(v) + r == [OPEN_BRACKET] + ItemsThen(v, v.items, r)
  {
    var p := PrintItems(v, v.items);
    assert ([OPEN_BRACKET] + p + [CLOSE_BRACKET]) + r == [OPEN_BRACKET] + (p + ([CLOSE_BRACKET] + r));
  }

  lemma {:induction false} ItemsUniquelyReadable(v: Json, xs: seq<Json>, w: Json, ys: seq<Json>, r: Text, q: Text)
    requires forall i :: 0 <= i < |xs| ==> xs[i] < v
    requires forall i :: 0 <= i < |ys| ==> ys[i] < w
    requires AllWellFormed(xs) && AllWellFormed(ys)
    requires ItemsThen(v, xs, r) == ItemsThen(w, ys, q)
    ensures NormItems(xs) == NormItems(ys) && r == q
    decreases v, 0, |xs|
  {
    ItemsHead(v, xs, r);
    ItemsHead(w, ys, q);
    if xs == [] {
      DropPrefix([CLOSE_BRACKET], r, q);
    } else {
      ItemsThenUnfolds(v, xs, r);
      ItemsThenUnfolds(w, ys, q);
      var a, b := AfterItem(v, xs, r), AfterItem(w, ys, q);
      UniquelyReadable(xs[0], ys[0], a, b);
      assert a[0] == if |xs| == 1 then CLOSE_BRACKET else COMMA;
      assert b[0] == if |ys| == 1 then CLOSE_BRACKET else COMMA;
      if |xs| == 1 {
        DropPrefix([CLOSE_BRACKET], r, q);
        assert xs[1..] == [] && ys[1..] == [];
      } else {
        DropPrefix([COMMA], ItemsThen(v, xs[1..], r), ItemsThen(w, ys[1..], q));
        ItemsUniquelyReadable(v, xs[1..], w, ys[1..], r, q);
      }
    }
  }

  lemma {:induction false} MembersUniquelyReadable(v: Json, es: seq<Entry>, w: Json, fs: seq<Entry>, r: Text, q: Text)
    requires forall i :: 0 <= i < |es| ==> es[i].val < v
    requires forall i :: 0 <= i < |fs| ==> fs[i].val < w
    requires ValuesWellFormed(es) && ValuesWellFormed(fs)
    requires MembersThen(v, es, r) == MembersThen(w, fs, q)
    ensures SameMembers(es, fs) && r == q
    decreases v, 0, |es|
  {
    MembersHead(v, es, r);
    MembersHead(w, fs, q);
    if es == [] {
      DropPrefix([CLOSE_BRACE], r, q);
    } else {
      MembersThenUnfolds(v, es, r);
      MembersThenUnfolds(w, fs, q);
      var a, b := AfterMember(v, es, r), AfterMember(w, fs, q);
      var x, y := StableStringify(es[0].val), StableStringify(fs[0].val);
      QuoteIsUniquelyReadable(es[0].key, fs[0].key, [COLON] + (x + a), [COLON] + (y + b));
      DropPrefix([COLON], x + a, y + b);
      UniquelyReadable(es[0].val, fs[0].val, a, b);
      assert a[0] == if |es| == 1 then CLOSE_BRACE else COMMA;
      assert b[0] == if |fs| == 1 then CLOSE_BRACE else COMMA;
      if |es| == 1 {
        DropPrefix([CLOSE_BRACE], r, q);
      } else {
        DropPrefix([COMMA], MembersThen(v, es[1..], r), MembersThen(w, fs[1..], q));
        MembersUniquelyReadable(v, es[1..], w, fs[1..], r, q);
        SameMembersCons(es, fs);
      }
    }
  }

  lemma SameMembersCons(es: seq<Entry>, fs: seq<Entry>)
    requires es != [] && fs != [] && SameMembers(es[1..], fs[1..])
    requires es[0].key == fs[0].key && NormOf(es[0].val) == NormOf(fs[0].val)
    ensures SameMembers(es, fs)
  {
    forall i | 0 <= i < |es| ensures es[i].key == fs[i].key && NormOf(es[i].val) == NormOf(fs[i].val) {
      if i > 0 {
        assert es[i] == es[1..][i - 1] && fs[i] == fs[1..][i - 1];
      }
    }
  }

  lemma ObjectText(v: Json, r: Text)
    requires v.Obj? && WellFormed(v)
    ensures forall i :: 0 <= i < |SortByKey(v.entries)| ==> SortByKey(v.entries)[i].val < v
    ensures StableStringify(v) + r == [OPEN_BRACE] + MembersThen(v, SortByKey(v.entries), r)
  {
    SortedEntriesOf(v);
    var p := PrintMembers(v, SortByKey(v.entries));
    assert StableStringify(v) == [OPEN_BRACE] + p + [CLOSE_BRACE];
    assert ([OPEN_BRACE] + p + [CLOSE_BRACE]) + r == [OPEN_BRACE] + (p + ([CLOSE_BRACE] + r));
  }

  lemma {:induction false} ObjectUniquelyReadable(v: Json, w: Json, r: Text, q: Text)
    requires v.Obj? && w.Obj? && WellFormed(v) && WellFormed(w)
    requires StableStringify(v) + r == StableStringify(w) + q
    ensures NormOf(v) == NormOf(w) && r == q
    decreases v, 1, 0
  {
    var es, fs := SortByKey(v.entries), SortByKey(w.entries);
    SortedEntriesOf(v);
    SortedEntriesOf(w);
    ObjectText(v, r);
    ObjectText(w, q);
    DropPrefix([OPEN_BRACE], MembersThen(v, es, r), MembersThen(w, fs, q));
    MembersUniquelyReadable(v, es, w, fs, r, q);
    SameMembersSameNorm(es, fs);
  }

  lemma {:induction false} SameMembersSameNorm(es: seq<Entry>, fs: seq<Entry>)
    requires SameMembers(es, fs)
    ensures NormEntries(es) == NormEntries(fs)
  {
    if es != [] {
      SameMembersSameNorm(es[1..], fs[1..]);
    }
  }

  // ---- Sorting keeps the meaning of an object -------------------------------------------

  predicate KeyIn(k: Text, es: seq<Entry>) {
    exists i :: 0 <= i < |es| && es[i].key == k
  }

  lemma {:induction false} NormKeys(es: seq<Entry>, k: Text)
    ensures k in NormEntries(es) <==> KeyIn(k, es)
  {
    if es != [] {
      NormKeys(es[1..], k);
      assert forall i :: 1 <= i < |es| ==> es[i] == es[1..][i - 1];
    }
  }

  lemma {:induction false} InsertKeepsNorm(e: Entry, es: seq<Entry>)
    requires !KeyIn(e.key, es)
    ensures NormEntries(Insert(e, es)) == NormEntries(es)[e.key := NormOf(e.val)]
    ensures |Insert(e, es)| == |es| + 1
  {
    if es == [] || Less(e.key, es[0].key) {
      assert ([e] + es)[1..] == es;
    } else {
      assert forall i :: 1 <= i < |es| ==> es[i] == es[1..][i - 1];
      InsertKeepsNorm(e, es[1..]);
      assert ([es[0]] + Insert(e, es[1..]))[1..] == Insert(e, es[1..]);
    }
  }

  lemma {:induction false} InsertSorts(e: Entry, es: seq<Entry>)
    requires Sorted(es) && !KeyIn(e.key, es)
    ensures Sorted(Insert(e, es))
  {
    if es == [] {
    } else if Less(e.key, es[0].key) {
      forall j | 0 < j < |es| ensures Less(e.key, es[j].key) {
        LessIsStrictOrder(e.key, es[0].key, es[j].key);
      }
    } else {
      LessIsStrictOrder(e.key, es[0].key, []);
      assert forall i :: 1 <= i < |es| ==> es[i] == es[1..][i - 1];
      InsertSorts(e, es[1..]);
      var tail := Insert(e, es[1..]);
      forall j | 0 <= j < |tail| ensures Less(es[0].key, tail[j].key) {
        assert tail[j] in tail;
      }
    }
  }

  lemma {:induction false} SortSorts(es: seq<Entry>)
    requires DistinctKeys(es)
    ensures Sorted(SortByKey(es)) && NormEntries(SortByKey(es)) == NormEntries(es)
  {
    if es != [] {
      assert forall i :: 1 <= i < |es| ==> es[i] == es[1..][i - 1];
      SortSorts(es[1..]);
      var tail := SortByKey(es[1..]);
      NormKeys(tail, es[0].key);
      NormKeys(es[1..], es[0].key);
      InsertSorts(es[0], tail);
      InsertKeepsNorm(es[0], tail);
    }
  }

  lemma SortedEntriesOf(v: Json)
    requires v.Obj? && WellFormed(v)
    ensures var es := SortByKey(v.entries);
            && Sorted(es) && ValuesWellFormed(es) && NormEntries(es) == NormEntries(v.entries)
            && (forall i :: 0 <= i < |es| ==> es[i].val < v)
  {
    SortSorts(v.entries);
    var es := SortByKey(v.entries);
    forall i | 0 <= i < |es| ensures es[i].val < v && WellFormed(es[i].val) {
      assert es[i] in es && es[i] in v.entries;
    }
  }

  // ---- Equal meaning prints alike -------------------------------------------------------

  lemma {:induction false} EqualPrintsAlike(v: Json, w: Json)
    requires WellFormed(v) && WellFormed(w) && NormOf(v) == NormOf(w)
    ensures StableStringify(v) == StableStringify(w)
    decreases v, 1, 0
  {
    if v.Arr? {
      EqualItemsPrintAlike(v, v.items, w, w.items);
    } else if v.Obj? {
      SortedEntriesOf(v);
      SortedEntriesOf(w);
      EqualMembersPrintAlike(v, SortByKey(v.entries), w, SortByKey(w.entries));
    }
  }

  lemma {:induction false} EqualItemsPrintAlike(v: Json, xs: seq<Json>, w: Json, ys: seq<Json>)
    requires forall i :: 0 <= i < |xs| ==> xs[i] < v
    requires forall i :: 0 <= i < |ys| ==> ys[i] < w
    requires AllWellFormed(xs) && AllWellFormed(ys) && NormItems(xs) == NormItems(ys)
    ensures PrintItems(v, xs) == PrintItems(w, ys)
    decreases v, 0, |xs|
  {
    if xs != [] && ys != [] {
      assert NormItems(xs)[0] == NormOf(xs[0]) && NormItems(ys)[0] == NormOf(ys[0]);
      assert NormItems(xs)[1..] == NormItems(xs[1..]) && NormItems(ys)[1..] == NormItems(ys[1..]);
      EqualPrintsAlike(xs[0], ys[0]);
      EqualItemsPrintAlike(v, xs[1..], w, ys[1..]);
    }
  }

  /** The first key of a sorted list is the least of its keys. */
  lemma HeadKeysAgree(es: seq<Entry>, fs: seq<Entry>)
    requires Sorted(es) && Sorted(fs) && es != [] && fs != [] && NormEntries(es) == NormEntries(fs)
    ensures es[0].key == fs[0].key
  {
    NormKeys(es, es[0].key);
    NormKeys(es, fs[0].key);
    NormKeys(fs, es[0].key);
    NormKeys(fs, fs[0].key);
    LessIsStrictOrder(es[0].key, fs[0].key, es[0].key);
  }

  lemma HeadKeyNotInTail(es: seq<Entry>)
    requires Sorted(es) && es != []
    ensures !KeyIn(es[0].key, es[1..])
  {
    LessIsStrictOrder(es[0].key, es[0].key, es[0].key);
  }

  lemma UpdateThenRemove<K, V>(m: map<K, V>, k: K, v: V)
    requires k !in m
    ensures m[k := v] - {k} == m
  {
  }

  lemma TailNorm(es: seq<Entry>)
    requires Sorted(es) && es != []
    ensures NormEntries(es[1..]) == NormEntries(es) - {es[0].key}
    ensures NormEntries(es)[es[0].key] == NormOf(es[0].val)
  {
    var k := es[0].key;
    HeadKeyNotInTail(es);
    NormKeys(es[1..], k);
    UpdateThenRemove(NormEntries(es[1..]), k, NormOf(es[0].val));
  }

  lemma {:induction false} EqualMembersPrintAlike(v: Json, es: seq<Entry>, w: Json, fs: seq<Entry>)
    requires forall i :: 0 <= i < |es| ==> es[i].val < v
    requires forall i :: 0 <= i < |fs| ==> fs[i].val < w
    requires ValuesWellFormed(es) && ValuesWellFormed(fs) && Sorted(es) && Sorted(fs)
    requires NormEntries(es) == NormEntries(fs)
    ensures PrintMembers(v, es) == PrintMembers(w, fs)
    decreases v, 0, |es|
  {
    NormIsEmpty(es);
    NormIsEmpty(fs);
    if es != [] {
      HeadKeysAgree(es, fs);
      TailNorm(es);
      TailNorm(fs);
      NormIsEmpty(es[1..]);
      NormIsEmpty(fs[1..]);
      EqualPrintsAlike(es[0].val, fs[0].val);
      EqualMembersPrintAlike(v, es[1..], w, fs[1..]);
    }
  }

  lemma NormIsEmpty(es: seq<Entry>)
    ensures NormEntries(es) == map[] <==> es == []
  {
    if es != [] {
      assert es[0].key in NormEntries(es);
    }
  }

  /** Two values print alike if and only if they mean the same: key order is ignored, nothing else is. */
  lemma StableStringifyIsCanonical(v: Json, w: Json)
    requires WellFormed(v) && WellFormed(w)
    ensures StableStringify(v) == StableStringify(w) <==> NormOf(v) == NormOf(w)
  {
    if StableStringify(v) == StableStringify(w) {
      assert StableStringify(v) + [] == StableStringify(w) + [];
      UniquelyReadable(v, w, [], []);
    }
    if NormOf(v) == NormOf(w) {
      EqualPrintsAlike(v, w);
    }
  }
}
