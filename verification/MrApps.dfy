// Two applications: word count, and an index of the documents each word is in. words stands
// for the library call that splits a text into its words, hash for the program's hash of a key.

module MrApps {
  import opened Collections
  import opened Sorting
  import opened MrSpec
  import opened MrTasks
  import opened MrSystem
  import MrRefinement

  function Digit(d: nat): char
    requires d < 10
  {
    ['0', '1', '2', '3', '4', '5', '6', '7', '8', '9'][d]
  }

  // Decimal digits, without leading zeros.
  function Itoa(n: nat): (s: string)
    ensures s != []
  {
    if n < 10 then [Digit(n)] else Itoa(n / 10) + [Digit(n % 10)]
  }

  // Different numbers are written differently.
  lemma {:induction false} ItoaInjective(m: nat, n: nat)
    requires Itoa(m) == Itoa(n)
    ensures m == n
  {
    assert Itoa(m)[|Itoa(m)| - 1] == Digit(m % 10) && Itoa(n)[|Itoa(n)| - 1] == Digit(n % 10);
    if m >= 10 && n >= 10 {
      assert Itoa(m)[..|Itoa(m)| - 1] == Itoa(m / 10) && Itoa(n)[..|Itoa(n)| - 1] == Itoa(n / 10);
      ItoaInjective(m / 10, n / 10);
    }
  }

  // The number that a string of decimal digits stands for.
  function NumberOf(s: string): int {
    if s == [] then 0 else 10 * NumberOf(s[..|s| - 1]) + (s[|s| - 1] as int - '0' as int)
  }

  // Itoa writes the number, in digits, with no zero in front of another digit.
  lemma {:induction false} ItoaWrites(n: nat)
    ensures NumberOf(Itoa(n)) == n
    ensures forall i :: 0 <= i < |Itoa(n)| ==> '0' <= Itoa(n)[i] <= '9'
    ensures |Itoa(n)| > 1 ==> Itoa(n)[0] != '0'
  {
    assert Digit(n % 10) as int == '0' as int + n % 10;
    if n < 10 {
      assert Itoa(n)[..0] == [];
    } else {
      ItoaWrites(n / 10);
      assert Itoa(n)[..|Itoa(n)| - 1] == Itoa(n / 10);
      if |Itoa(n / 10)| == 1 { assert Itoa(n / 10) == [Digit(n / 10)]; }
    }
  }

  // ----- Word count -----

  function CountPairs(ws: seq<string>): seq<KeyValue> {
    seq(|ws|, i requires 0 <= i < |ws| => KeyValue(ws[i], "1"))
  }

  method CountMap(contents: string, words: string -> seq<string>) returns (kva: seq<KeyValue>)
    ensures kva == CountPairs(words(contents))
  {
    var ws := words(contents);
    kva := [];
    for i := 0 to |ws|
      invariant kva == CountPairs(ws[..i])
    {
      kva := kva + [KeyValue(ws[i], "1")];
    }
    assert ws[..|ws|] == ws;
  }

  function WordCount(words: string -> seq<string>, hash: string -> nat): App {
    App((filename, contents) => multiset(CountPairs(words(contents))), (key, values) => Itoa(|values|), hash)
  }

  // How often w is in the files.
  ghost function Occurrences(files: seq<string>, contents: map<string, string>, words: string -> seq<string>,
                             w: string): nat
    requires forall f :: f in files ==> f in contents
  {
    if files == [] then 0
    else
      Occurrences(files[..|files| - 1], contents, words, w) + multiset(words(contents[files[|files| - 1]]))[w]
  }

  lemma {:induction false} PairsCount(ws: seq<string>, w: string, v: string)
    ensures multiset(CountPairs(ws))[KeyValue(w, v)] == if v == "1" then multiset(ws)[w] else 0
  {
    if ws != [] {
      var n := |ws| - 1;
      PairsCount(ws[..n], w, v);
      assert ws == ws[..n] + [ws[n]];
      assert CountPairs(ws) == CountPairs(ws[..n]) + [KeyValue(ws[n], "1")];
    }
  }

  lemma {:induction false} CountEmitted(files: seq<string>, contents: map<string, string>,
                                        words: string -> seq<string>, hash: string -> nat, w: string, v: string)
    requires forall f :: f in files ==> f in contents
    ensures Emitted(files, contents, WordCount(words, hash))[KeyValue(w, v)]
      == if v == "1" then Occurrences(files, contents, words, w) else 0
  {
    if files != [] {
      CountEmitted(files[..|files| - 1], contents, words, hash, w, v);
      PairsCount(words(contents[files[|files| - 1]]), w, v);
    }
  }

  lemma {:induction false} AllTheSame(vs: seq<string>, x: string)
    requires forall i :: 0 <= i < |vs| ==> vs[i] == x
    ensures multiset(vs)[x] == |vs|
  {
    if vs != [] {
      var n := |vs| - 1;
      assert vs == vs[..n] + [vs[n]];
      AllTheSame(vs[..n], x);
    }
  }

  // The right output of word count: a line for each word of the files, with the number of times
  // it is there.
  lemma {:induction false} CountLines(files: seq<string>, contents: map<string, string>, words: string -> seq<string>,
                   hash: string -> nat, lines: seq<Line>)
    requires forall f :: f in files ==> f in contents
    requires IsOutput(lines, Emitted(files, contents, WordCount(words, hash)), WordCount(words, hash))
    ensures DistinctKeys(lines)
    ensures forall i :: 0 <= i < |lines| ==> lines[i].output == Itoa(Occurrences(files, contents, words, lines[i].key))
    ensures forall w :: HasKey(lines, w) <==> Occurrences(files, contents, words, w) > 0
  {
    var app := WordCount(words, hash);
    var kvs := Emitted(files, contents, app);
    forall i | 0 <= i < |lines|
      ensures lines[i].output == Itoa(Occurrences(files, contents, words, lines[i].key))
      ensures Occurrences(files, contents, words, lines[i].key) > 0
    {
      var w := lines[i].key;
      assert GoodLine(lines[i], kvs, app);
      var vs :| vs != [] && AreValues(vs, kvs, w) && lines[i].output == app.reducef(w, vs);
      forall k | 0 <= k < |vs| ensures vs[k] == "1" {
        CountEmitted(files, contents, words, hash, w, vs[k]);
        assert vs[k] in multiset(vs);
      }
      AllTheSame(vs, "1");
      CountEmitted(files, contents, words, hash, w, "1");
    }
    forall w | Occurrences(files, contents, words, w) > 0 ensures HasKey(lines, w) {
      CountEmitted(files, contents, words, hash, w, "1");
      assert KeyValue(w, "1") in kvs;
    }
  }

  lemma WordCountBlind(words: string -> seq<string>, hash: string -> nat)
    ensures OrderBlind(WordCount(words, hash))
  {
    var app := WordCount(words, hash);
    forall k: string, vs: seq<string>, ws: seq<string> | multiset(vs) == multiset(ws)
      ensures app.reducef(k, vs) == app.reducef(k, ws)
    {
      assert |vs| == |multiset(vs)| == |multiset(ws)| == |ws|;
    }
  }

  // Every finished distributed word count, whatever happened in it, has counted the words.
  lemma DistributedWordCount(j: Setup, states: seq<State>, events: seq<Event>, i: nat, words: string -> seq<string>)
    requires Run(j, states, events) && i <= |events| && states[i].coord.Done()
    requires Distinct(j.files) && j.app == WordCount(words, j.app.hash)
    ensures states[i].outs.Keys == Below(j.nReduce) && forall f :: f in j.files ==> f in j.contents
    ensures var lines := MrRefinement.Concat(states[i].outs, j.nReduce);
      && DistinctKeys(lines)
      && (forall l :: 0 <= l < |lines| ==>
            lines[l].output == Itoa(Occurrences(j.files, j.contents, words, lines[l].key)))
      && (forall w :: HasKey(lines, w) <==> Occurrences(j.files, j.contents, words, w) > 0)
  {
    MrRefinement.DoneIsRight(j, states, events, i, j.files);
    CountLines(j.files, j.contents, words, j.app.hash, MrRefinement.Concat(states[i].outs, j.nReduce));
  }

  // ----- Index -----

  ghost function IndexPairs(document: string, ws: seq<string>): set<KeyValue> {
    set w | w in ws :: KeyValue(w, document)
  }

  // One pair for each word of the document, in any order.
  method IndexMap(document: string, value: string, words: string -> seq<string>) returns (res: seq<KeyValue>)
    ensures multiset(res) == multiset(IndexPairs(document, words(value)))
  {
    var m: set<string> := {};
    var ws := words(value);
    for i := 0 to |ws|
      invariant m == set w | w in ws[..i]
    {
      assert ws[..i + 1] == ws[..i] + [ws[i]];
      m := m + {ws[i]};
    }
    assert ws[..|ws|] == ws;
    res := [];
    var rest := m;
    while rest != {}
      invariant rest <= m
      invariant multiset(res) == multiset(set w | w in m - rest :: KeyValue(w, document))
      decreases rest
    {
      var w :| w in rest;
      ghost var done := set u | u in m - rest :: KeyValue(u, document);
      assert (set u | u in m - (rest - {w}) :: KeyValue(u, document)) == done + {KeyValue(w, document)};
      assert KeyValue(w, document) !in done;
      res := res + [KeyValue(w, document)];
      rest := rest - {w};
    }
    assert m - rest == m;
    assert (set w | w in m :: KeyValue(w, document)) == IndexPairs(document, ws);
  }

  function Join(ss: seq<string>, sep: string): string {
    if ss == [] then ""
    else if |ss| == 1 then ss[0]
    else ss[0] + sep + Join(ss[1..], sep)
  }

  // The pieces of s between its occurrences of c.
  function SplitAt(s: string, c: char): (r: seq<string>)
    ensures |r| > 0
  {
    if s == [] then [""]
    else
      var rest := SplitAt(s[1..], c);
      if s[0] == c then [""] + rest else [[s[0]] + rest[0]] + rest[1..]
  }

  lemma {:induction false} SplitPiece(s: string, c: char, more: string)
    requires c !in s
    ensures SplitAt(s, c) == [s]
    ensures SplitAt(s + [c] + more, c) == [s] + SplitAt(more, c)
  {
    var t := s + [c] + more;
    if s == [] {
      assert t == [c] + more && t[1..] == more;
    } else {
      SplitPiece(s[1..], c, more);
      assert t[1..] == s[1..] + [c] + more;
      assert [s[0]] + s[1..] == s;
    }
  }

  // Joining with a comma loses nothing: what was joined can be split off again, as long as no
  // piece has a comma in it.
  lemma {:induction false} JoinSplits(ss: seq<string>, c: char)
    requires ss != [] && forall i :: 0 <= i < |ss| ==> c !in ss[i]
    ensures SplitAt(Join(ss, [c]), c) == ss
  {
    if |ss| == 1 {
      SplitPiece(ss[0], c, "");
    } else {
      JoinSplits(ss[1..], c);
      SplitPiece(ss[0], c, Join(ss[1..], [c]));
      assert ss == [ss[0]] + ss[1..];
    }
  }

  function Same(s: string): string {
    s
  }

  ghost predicate Sorted(s: seq<string>) {
    SortedBy(s, Same)
  }

  lemma {:induction false} SortedUnique(a: seq<string>, b: seq<string>)
    requires Sorted(a) && Sorted(b) && multiset(a) == multiset(b)
    ensures a == b
  {
    assert |a| == |multiset(a)| == |multiset(b)| == |b|;
    if a != [] {
      FirstIsLeast(a, b);
      FirstIsLeast(b, a);
      AtMostAntisymmetric(a[0], b[0]);
      TailsAgree(a, b);
      SortedUnique(a[1..], b[1..]);
    }
  }

  lemma TailsAgree(a: seq<string>, b: seq<string>)
    requires multiset(a) == multiset(b) && a != [] && b != [] && a[0] == b[0]
    ensures multiset(a[1..]) == multiset(b[1..])
    ensures a[1..] == b[1..] ==> a == b
  {
    assert a == [a[0]] + a[1..] && b == [b[0]] + b[1..];
    assert multiset(a[1..]) == multiset(a) - multiset{a[0]} == multiset(b[1..]);
  }

  lemma FirstIsLeast(a: seq<string>, b: seq<string>)
    requires Sorted(a) && multiset(a) == multiset(b) && |a| == |b| > 0
    ensures AtMost(a[0], b[0])
  {
    assert b[0] in multiset(a);
    var i :| 0 <= i < |a| && a[i] == b[0];
    if i == 0 { AtMostTotal(a[0], a[0]); } else { assert AtMost(Same(a[0]), Same(a[i])); }
  }

  function InsertSorted(x: string, s: seq<string>): (r: seq<string>)
    ensures multiset(r) == multiset(s) + multiset{x}
  {
    if s == [] then [x]
    else if AtMost(x, s[0]) then [x] + s
    else
      assert s == [s[0]] + s[1..];
      [s[0]] + InsertSorted(x, s[1..])
  }

  // The values in order.
  function InOrder(s: seq<string>): (r: seq<string>)
    ensures multiset(r) == multiset(s)
  {
    if s == [] then []
    else
      assert s == [s[0]] + s[1..];
      InsertSorted(s[0], InOrder(s[1..]))
  }

  lemma {:induction false} SortedCons(x: string, s: seq<string>)
    requires Sorted(s) && forall k :: 0 <= k < |s| ==> AtMost(x, s[k])
    ensures Sorted([x] + s)
  {
  }

  // Everything in a sorted sequence is at least its first element.
  lemma {:induction false} FirstBelow(x: string, s: seq<string>, y: string)
    requires Sorted(s) && s != [] && AtMost(x, s[0]) && y in s
    ensures AtMost(x, y)
  {
    var k :| 0 <= k < |s| && s[k] == y;
    if k > 0 {
      assert AtMost(Same(s[0]), Same(s[k]));
      AtMostTransitive(x, s[0], y);
    }
  }

  lemma {:induction false} InsertKeepsSorted(x: string, s: seq<string>)
    requires Sorted(s)
    ensures Sorted(InsertSorted(x, s))
  {
    if s != [] {
      if AtMost(x, s[0]) {
        forall k | 0 <= k < |s| ensures AtMost(x, s[k]) { FirstBelow(x, s, s[k]); }
        SortedCons(x, s);
      } else {
        InsertKeepsSorted(x, s[1..]);
        AtMostTotal(x, s[0]);
        AtMostTotal(s[0], s[0]);
        var rest := InsertSorted(x, s[1..]);
        forall k | 0 <= k < |rest| ensures AtMost(s[0], rest[k]) {
          assert rest[k] in multiset(s[1..]) + multiset{x};
          if rest[k] != x { FirstBelow(s[0], s, rest[k]); }
        }
        SortedCons(s[0], rest);
      }
    }
  }

  lemma {:induction false} InOrderSorted(s: seq<string>)
    ensures Sorted(InOrder(s))
  {
    if s != [] {
      InOrderSorted(s[1..]);
      InsertKeepsSorted(s[0], InOrder(s[1..]));
    }
  }

  function IndexLine(values: seq<string>): string {
    Itoa(|values|) + " " + Join(InOrder(values), ",")
  }

  // Sorts its argument, whose old order is lost, and joins it.
  method IndexReduce(values: seq<string>) returns (output: string)
    ensures output == IndexLine(values)
  {
    var sorted := SortBy(values, Same);
    InOrderSorted(values);
    SortedUnique(sorted, InOrder(values));
    output := Itoa(|sorted|) + " " + Join(sorted, ",");
  }

  ghost function Index(words: string -> seq<string>, hash: string -> nat): App {
    App((document, value) => multiset(IndexPairs(document, words(value))), (key, values) => IndexLine(values), hash)
  }

  // However the values arrive, the index line is the same.
  lemma IndexBlind(words: string -> seq<string>, hash: string -> nat)
    ensures OrderBlind(Index(words, hash))
  {
    var app := Index(words, hash);
    forall k: string, vs: seq<string>, ws: seq<string> | multiset(vs) == multiset(ws)
      ensures app.reducef(k, vs) == app.reducef(k, ws)
    {
      InOrderSorted(vs);
      InOrderSorted(ws);
      SortedUnique(InOrder(vs), InOrder(ws));
      assert |vs| == |multiset(vs)| == |multiset(ws)| == |ws|;
    }
  }

  lemma {:induction false} IndexEmitted(files: seq<string>, contents: map<string, string>,
                                        words: string -> seq<string>, hash: string -> nat, w: string, f: string)
    requires forall g :: g in files ==> g in contents
    ensures Emitted(files, contents, Index(words, hash))[KeyValue(w, f)]
      == if f in contents && w in words(contents[f]) then multiset(files)[f] else 0
  {
    if files != [] {
      var n := |files| - 1;
      var last := files[n];
      IndexEmitted(files[..n], contents, words, hash, w, f);
      assert files == files[..n] + [last];
      assert KeyValue(w, f) in IndexPairs(last, words(contents[last])) <==> f == last && w in words(contents[last]);
    }
  }

  // docs lists, in order, the files with the word w.
  ghost predicate DocumentsOf(docs: seq<string>, files: seq<string>, contents: map<string, string>,
                              words: string -> seq<string>, w: string)
  {
    && Sorted(docs)
    && forall f :: multiset(docs)[f] == if f in contents && w in words(contents[f]) then multiset(files)[f] else 0
  }

  // A line of the right output lists the files of its word, at least one.
  lemma IndexLineIs(files: seq<string>, contents: map<string, string>, words: string -> seq<string>,
                    hash: string -> nat, line: Line) returns (docs: seq<string>)
    requires forall f :: f in files ==> f in contents
    requires GoodLine(line, Emitted(files, contents, Index(words, hash)), Index(words, hash))
    ensures docs != [] && DocumentsOf(docs, files, contents, words, line.key)
    ensures line.output == Itoa(|docs|) + " " + Join(docs, ",")
  {
    var app := Index(words, hash);
    var kvs := Emitted(files, contents, app);
    var vs :| vs != [] && AreValues(vs, kvs, line.key) && line.output == app.reducef(line.key, vs);
    docs := InOrder(vs);
    InOrderSorted(vs);
    assert |docs| == |multiset(docs)| == |multiset(vs)| == |vs|;
    forall f
      ensures multiset(docs)[f] ==
        if f in contents && line.key in words(contents[f]) then multiset(files)[f] else 0
    {
      IndexEmitted(files, contents, words, hash, line.key, f);
    }
  }

  ghost predicate InSomeFile(files: seq<string>, contents: map<string, string>, words: string -> seq<string>, w: string) {
    exists f :: f in files && f in contents && w in words(contents[f])
  }

  // The line says how many of the files its word is in, and which, in order.
  ghost predicate IndexesWord(line: Line, files: seq<string>, contents: map<string, string>, words: string -> seq<string>) {
    exists docs :: docs != [] && DocumentsOf(docs, files, contents, words, line.key)
                   && line.output == Itoa(|docs|) + " " + Join(docs, ",")
  }

  lemma LineWordInFile(line: Line, files: seq<string>, contents: map<string, string>, words: string -> seq<string>)
    requires IndexesWord(line, files, contents, words)
    ensures InSomeFile(files, contents, words, line.key)
  {
    var docs :| docs != [] && DocumentsOf(docs, files, contents, words, line.key)
      && line.output == Itoa(|docs|) + " " + Join(docs, ",");
    assert docs[0] in multiset(docs);
    assert docs[0] in multiset(files);
  }

  // The right output of the indexer: a line for each word of the files and no other, saying how
  // many files it is in, and which, in order.
  lemma {:induction false} IndexLines(files: seq<string>, contents: map<string, string>, words: string -> seq<string>,
                   hash: string -> nat, lines: seq<Line>)
    requires forall f :: f in files ==> f in contents
    requires IsOutput(lines, Emitted(files, contents, Index(words, hash)), Index(words, hash))
    ensures DistinctKeys(lines)
    ensures forall i :: 0 <= i < |lines| ==> IndexesWord(lines[i], files, contents, words)
    ensures forall w :: HasKey(lines, w) <==> InSomeFile(files, contents, words, w)
  {
    forall i | 0 <= i < |lines| ensures IndexesWord(lines[i], files, contents, words) {
      var docs := IndexLineIs(files, contents, words, hash, lines[i]);
    }
    forall w | HasKey(lines, w) ensures InSomeFile(files, contents, words, w) {
      var i :| 0 <= i < |lines| && lines[i].key == w;
      LineWordInFile(lines[i], files, contents, words);
    }
    forall w | InSomeFile(files, contents, words, w) ensures HasKey(lines, w) {
      var f :| f in files && f in contents && w in words(contents[f]);
      IndexEmitted(files, contents, words, hash, w, f);
      assert f in multiset(files);
      assert KeyValue(w, f) in Emitted(files, contents, Index(words, hash));
    }
  }

  // Every finished distributed indexing, whatever happened in it, has indexed the words.
  lemma DistributedIndex(j: Setup, states: seq<State>, events: seq<Event>, i: nat, words: string -> seq<string>)
    requires Run(j, states, events) && i <= |events| && states[i].coord.Done()
    requires Distinct(j.files) && j.app == Index(words, j.app.hash)
    ensures states[i].outs.Keys == Below(j.nReduce)
    ensures var lines := MrRefinement.Concat(states[i].outs, j.nReduce);
      && DistinctKeys(lines)
      && (forall l :: 0 <= l < |lines| ==> IndexesWord(lines[l], j.files, j.contents, words))
      && (forall w :: HasKey(lines, w) <==> InSomeFile(j.files, j.contents, words, w))
  {
    MrRefinement.DoneIsRight(j, states, events, i, j.files);
    IndexLines(j.files, j.contents, words, j.app.hash, MrRefinement.Concat(states[i].outs, j.nReduce));
  }
}
