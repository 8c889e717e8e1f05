/** What a marker costs: cutting one more row always pays, and one marker is cheaper than two. */
module TailPrice {
  import opened Options
  import opened Text
  import opened TrimMarker
  import opened RowPattern
  import opened RankedPage
  import opened TailRule
  import Utf8

  // ---- the length of decimals ----

  function Digits(n: nat): (k: nat)
    ensures k >= 1
  {
    if n < 10 then 1 else 1 + Digits(n / 10)
  }

  lemma {:induction false} DecHasDigits(n: nat)
    ensures |Dec(n)| == Digits(n) && Utf8.Size(Dec(n)) == Digits(n)
  {
    DecRoundTrip(n);
    Utf8.AsciiSize(Dec(n));
    if n >= 10 {
      DecHasDigits(n / 10);
    }
  }

  lemma {:induction false} DigitsGrow(m: nat, n: nat)
    requires m <= n
    ensures Digits(m) <= Digits(n)
    decreases n
  {
    if m >= 10 {
      DigitsGrow(m / 10, n / 10);
    }
  }

  /** A sum, with a carry, has no more digits than its terms together. */
  lemma {:induction false} DigitsOfSum(m: nat, n: nat)
    ensures Digits(m + n + 1) <= Digits(m) + Digits(n)
    decreases m + n
  {
    if m >= 10 || n >= 10 {
      var a, b := if m >= 10 then m / 10 else 0, if n >= 10 then n / 10 else 0;
      DigitsOfSum(a, b);
      DigitsGrow((m + n + 1) / 10, a + b + 1);
    }
  }

  lemma DigitsOfTwo(m: nat, n: nat)
    ensures Digits(m + n) <= Digits(m) + Digits(n)
  {
    DigitsOfSum(m, n);
    DigitsGrow(m + n, m + n + 1);
  }

  lemma {:induction false} DigitsAreFew(n: nat)
    ensures Digits(n) <= 1 + n / 10
  {
    if n >= 10 {
      DigitsAreFew(n / 10);
    }
  }

  /** A number written with `s` has at most as many digits. */
  lemma {:induction false} ParsedIsShort(s: string)
    requires s != "" && AllDigits(s)
    ensures Digits(ParseDec(s)) <= |s|
  {
    var front := s[..|s| - 1];
    if front == "" {
      assert ParseDec(front) == 0;
    } else {
      ParsedIsShort(front);
      assert ParseDec(s) / 10 == ParseDec(front);
    }
  }

  // ---- the size of a marker ----

  function Sizes(groups: seq<string>): (n: nat) {
    if groups == [] then 0 else Utf8.Size(groups[0]) + Sizes(groups[1..])
  }

  lemma {:induction false} SizeOfConcat(groups: seq<string>)
    ensures Utf8.Size(Concat(groups)) == Sizes(groups)
  {
    if groups != [] {
      SizeOfConcat(groups[1..]);
      Utf8.EncodeAppend(groups[0], Concat(groups[1..]));
    }
  }

  lemma TwoSizes(a: string, b: string, rest: seq<string>)
    ensures Sizes([a, b] + rest) == Utf8.Size(a) + Utf8.Size(b) + Sizes(rest)
  {
    assert ([a, b] + rest)[1..] == [b] + rest && ([b] + rest)[1..] == rest;
  }

  lemma SixSizes(a: string, b: string, c: string, d: string, e: string, f: string, rest: seq<string>)
    ensures Sizes([a, b, c, d, e, f] + rest)
            == Utf8.Size(a) + Utf8.Size(b) + Utf8.Size(c) + Utf8.Size(d) + Utf8.Size(e) + Utf8.Size(f) + Sizes(rest)
  {
    assert [a, b, c, d, e, f] + rest == [a, b] + ([c, d] + ([e, f] + rest));
    TwoSizes(a, b, [c, d] + ([e, f] + rest));
    TwoSizes(c, d, [e, f] + rest);
    TwoSizes(e, f, rest);
  }

  /** A marker's words, its handle and the line feed. */
  function Fixed(w: seq<string>, handle: string): (n: nat)
    requires |w| == 7
  {
    Utf8.Size(w[0]) + Utf8.Size(w[1]) + Utf8.Size(w[2]) + Utf8.Size(w[3]) + Utf8.Size(w[4]) + Utf8.Size(w[5])
    + Utf8.Size(w[6]) + Utf8.Size(handle) + 1
  }

  lemma GroupSizes(w: seq<string>, count: nat, first: nat, last: nat, bytes: nat, best: nat, handle: string)
    requires |w| == 7
    ensures Sizes(Groups(w, count, first, last, bytes, best, handle)) + 1
            == Fixed(w, handle) + Digits(count) + Digits(first) + Digits(last) + Digits(bytes) + Digits(best)
  {
    var back := [w[3], Dec(bytes), w[4], Dec(best), w[5], handle] + [w[6]];
    assert Groups(w, count, first, last, bytes, best, handle)
        == [w[0], Dec(count), w[1], Dec(first), w[2], Dec(last)] + back;
    SixSizes(w[0], Dec(count), w[1], Dec(first), w[2], Dec(last), back);
    SixSizes(w[3], Dec(bytes), w[4], Dec(best), w[5], handle, [w[6]]);
    assert [w[6]][1..] == [];
    assert Sizes([w[6]]) == Utf8.Size(w[6]) + Sizes([]);
    DecHasDigits(count);
    DecHasDigits(first);
    DecHasDigits(last);
    DecHasDigits(bytes);
    DecHasDigits(best);
  }

  lemma LinePrice(w: seq<string>, count: nat, first: nat, last: nat, bytes: nat, best: nat, handle: string)
    requires |w| == 7
    ensures Utf8.Size(LineOf(w, count, first, last, bytes, best, handle))
            == Fixed(w, handle) + Digits(count) + Digits(first) + Digits(last) + Digits(bytes) + Digits(best)
  {
    var groups := Groups(w, count, first, last, bytes, best, handle);
    GroupSizes(w, count, first, last, bytes, best, handle);
    SizeOfConcat(groups);
    Utf8.EncodeAppend(Concat(groups), "\n");
    Utf8.AsciiSize("\n");
  }

  /** What a cut at `k` saves when a marker costs `base` besides its numbers. */
  function Net(base: nat, rows: seq<Row>, best: nat, k: nat): (n: int)
    requires k < |rows|
  {
    Bytes(rows[k..]) - base - Digits(|rows| - k) - Digits(rows[k].rank) - Digits(rows[|rows| - 1].rank)
    - Digits(Bytes(rows[k..])) - Digits(best)
  }

  lemma NetOfLine(w: seq<string>, handle: string, rows: seq<Row>, best: nat, k: nat)
    requires |w| == 7 && k < |rows|
    ensures var cut := rows[k..];
            Bytes(cut) - Utf8.Size(LineOf(w, |cut|, cut[0].rank, cut[|cut| - 1].rank, Bytes(cut), best, handle))
            == Net(Fixed(w, handle), rows, best, k)
  {
    var cut := rows[k..];
    LinePrice(w, |cut|, cut[0].rank, cut[|cut| - 1].rank, Bytes(cut), best, handle);
  }

  lemma NetOfMarker(w: seq<string>, handle: string, marker: string, rows: seq<Row>, best: nat, k: nat)
    requires |w| == 7 && k < |rows|
    requires var cut := rows[k..];
             marker == LineOf(w, |cut|, cut[0].rank, cut[|cut| - 1].rank, Bytes(cut), best, handle)
    ensures Bytes(rows[k..]) - Utf8.Size(marker) == Net(Fixed(w, handle), rows, best, k)
  {
    NetOfLine(w, handle, rows, best, k);
  }

  lemma SavedIsNet(rows: seq<Row>, k: nat)
    requires k < |rows|
    ensures SavedAt(rows, k) == Net(Fixed(WORDS, HANDLE), rows, Best(rows), k)
  {
    NetOfMarker(WORDS, HANDLE, CutMarker(rows[k..], Best(rows), HANDLE), rows, Best(rows), k);
  }

  // ---- a row more ----

  /** The row is longer than its rank and its byte count written out. */
  ghost predicate Pays(row: Row) {
    Utf8.Size(row.Body()) > Digits(row.rank) + Digits(Utf8.Size(row.Body()))
  }

  lemma BytesFrom(rows: seq<Row>, k: nat)
    requires k < |rows|
    ensures Bytes(rows[k..]) == Utf8.Size(rows[k].Body()) + Bytes(rows[k + 1..])
  {
    assert rows[k..][0] == rows[k] && rows[k..][1..] == rows[k + 1..];
  }

  lemma NetGrows(base: nat, rows: seq<Row>, best: nat, k: nat)
    requires k + 1 < |rows| && Pays(rows[k])
    ensures Net(base, rows, best, k) > Net(base, rows, best, k + 1)
  {
    BytesFrom(rows, k);
    DigitsOfTwo(|rows| - k - 1, 1);
    DigitsOfTwo(Bytes(rows[k + 1..]), Utf8.Size(rows[k].Body()));
  }

  /** Cutting one more row saves more. */
  lemma OneMoreRowSaves(rows: seq<Row>, k: nat)
    requires k + 1 < |rows| && Pays(rows[k])
    ensures SavedAt(rows, k) > SavedAt(rows, k + 1)
  {
    SavedIsNet(rows, k);
    SavedIsNet(rows, k + 1);
    NetGrows(Fixed(WORDS, HANDLE), rows, Best(rows), k);
  }

  lemma {:induction false} EarlierCutSavesMore(rows: seq<Row>, j: nat, k: nat)
    requires j <= k < |rows| && forall i :: j <= i < k ==> Pays(rows[i])
    ensures SavedAt(rows, j) >= SavedAt(rows, k)
    ensures j < k ==> SavedAt(rows, j) > SavedAt(rows, k)
    decreases k - j
  {
    if j < k {
      EarlierCutSavesMore(rows, j + 1, k);
      OneMoreRowSaves(rows, j);
    }
  }

  // ---- two cuts ----

  lemma {:induction false} BytesAppend(a: seq<Row>, b: seq<Row>)
    ensures Bytes(a + b) == Bytes(a) + Bytes(b)
  {
    if a == [] {
      Nil(b);
    } else {
      TailOfAppend(a, b);
      BytesAppend(a[1..], b);
    }
  }

  lemma TwoNets(base: nat, rows: seq<Row>, best: nat, j: nat, k: nat)
    requires j < k < |rows|
    ensures Net(base, rows[..k], best, j) + Net(base, rows, best, k) < Net(base, rows, best, j)
  {
    var front, back := rows[..k][j..], rows[k..];
    assert rows[j..] == front + back;
    BytesAppend(front, back);
    DigitsOfTwo(k - j, |rows| - k);
    DigitsOfTwo(Bytes(front), Bytes(back));
  }

  /** Cutting in two pieces saves less than cutting at once: it takes a second marker. */
  lemma TwoCutsSaveLess(rows: seq<Row>, j: nat, k: nat)
    requires j < k < |rows| && Best(rows[..k]) == Best(rows)
    ensures SavedAt(rows[..k], j) + SavedAt(rows, k) < SavedAt(rows, j)
  {
    SavedIsNet(rows[..k], j);
    SavedIsNet(rows, k);
    SavedIsNet(rows, j);
    TwoNets(Fixed(WORDS, HANDLE), rows, Best(rows), j, k);
  }

  // ---- readable rows pay ----

  /** The most digits `int` converts; the script stops at a row with more. */
  const MAX_DIGITS := 4300

  predicate Convertible(rows: seq<Row>) {
    forall i :: 0 <= i < |rows| ==> Digits(rows[i].rank) <= MAX_DIGITS
  }

  lemma {:induction false} GroupIsWithin(groups: seq<string>, i: nat)
    requires i < |groups|
    ensures |Concat(groups)| >= |groups[i]|
  {
    if i > 0 {
      GroupIsWithin(groups[1..], i - 1);
    }
  }

  lemma ScoreIsLong(opening: string, s: string)
    requires MatchTokens([Lit(opening), Number, Lit(" \U{B7} utility "), Number], s).Some?
    ensures var groups := MatchTokens([Lit(opening), Number, Lit(" \U{B7} utility "), Number], s).value.0;
            |groups| == 4 && groups[1] != "" && AllDigits(groups[1]) && Digits(ParseDec(groups[1])) <= |s|
  {
    var tokens := [Lit(opening), Number, Lit(" \U{B7} utility "), Number];
    MatchSound(tokens, s);
    var groups := MatchTokens(tokens, s).value.0;
    assert TokenFits(tokens[1], groups[1]);
    ParsedIsShort(groups[1]);
    GroupIsWithin(groups, 1);
  }

  lemma RankIsInScore(s: string)
    requires MatchScore(s).Some?
    ensures Digits(MatchScore(s).value.0) <= |s|
  {
    if MatchTokens([Lit(", rank "), Number, Lit(" \U{B7} utility "), Number], s).Some? {
      ScoreIsLong(", rank ", s);
    } else {
      ScoreIsLong(" \U{B7} rank ", s);
    }
  }

  lemma RankIsInLine(line: string)
    requires MatchRow(line).Some?
    ensures |line| >= Digits(MatchRow(line).value.rank) + 8
  {
    var j := RowEnds(line).value.1;
    RankIsInScore(line[j..]);
  }

  lemma {:induction false} SizeIsAtLeastLength(s: string)
    ensures Utf8.Size(s) >= |s|
  {
    if s != "" {
      SizeIsAtLeastLength(s[1..]);
    }
  }

  /** The row's text is at least eight bytes longer than its rank. */
  lemma RowIsLong(row: Row, anchored: bool)
    requires RowOk(row, Reader(anchored))
    ensures Utf8.Size(row.Body()) >= Digits(row.rank) + 8
  {
    var line := row.lines[0];
    assert ReadRow(line, anchored) == Some(row.(lines := [line]));
    RankIsInLine(line);
    Utf8.EncodeAppend(line, Concat(row.lines[1..]));
    SizeIsAtLeastLength(line);
  }

  lemma FewDigits(b: nat)
    ensures b < 10000 ==> Digits(b) <= 4
    ensures b >= 10000 ==> Digits(b) + MAX_DIGITS < b
  {
    if b < 10000 {
      DigitsGrow(b, 9999);
      assert Digits(9999) == 1 + Digits(999) && Digits(999) == 1 + Digits(99);
    } else {
      DigitsAreFew(b);
    }
  }

  /** Every row that a page can yield and the script can convert pays. */
  lemma ReadableRowPays(row: Row, anchored: bool)
    requires RowOk(row, Reader(anchored)) && Digits(row.rank) <= MAX_DIGITS
    ensures Pays(row)
  {
    RowIsLong(row, anchored);
    FewDigits(Utf8.Size(row.Body()));
  }

  lemma ReadableRowsPay(rows: seq<Row>, anchored: bool)
    requires RowsOk(rows, Reader(anchored)) && Convertible(rows)
    ensures forall i :: 0 <= i < |rows| ==> Pays(rows[i])
  {
    forall i | 0 <= i < |rows| ensures Pays(rows[i]) {
      ReadableRowPays(rows[i], anchored);
    }
  }
}
