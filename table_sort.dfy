/**
 * The client table's single-key sort: the comparator built from the sort
 * configuration, the `requestSort` toggle, and the sort itself, which copies
 * the client list into a fresh array and sorts that copy in place with a
 * stable sort.
 */
module TableSort {
  import opened JsBuiltins
  import opened Records

  /** The sortable columns of the table. */
  datatype SortKey = Cliente | LastPurchaseDate | AverageTicketValue | TotalRevenue

  datatype Direction = Asc | Desc

  datatype SortConfig = SortConfig(key: SortKey, direction: Direction)

  /** The table opens sorted by revenue, highest first. */
  const DefaultSort := SortConfig(TotalRevenue, Desc)

  // ---------------------------------------------------------------------------
  // JavaScript `<` on strings: lexicographic, a proper prefix being smaller.

  predicate StrLess(a: string, b: string)
    decreases |a|
  {
    |b| > 0 && (|a| == 0 || a[0] < b[0] || (a[0] == b[0] && StrLess(a[1..], b[1..])))
  }

  lemma {:induction false} StrLessIrreflexive(a: string)
    ensures !StrLess(a, a)
    decreases |a|
  {
    if |a| > 0 {
      StrLessIrreflexive(a[1..]);
    }
  }

  lemma {:induction false} StrLessTrichotomy(a: string, b: string)
    ensures a == b || StrLess(a, b) || StrLess(b, a)
    ensures !(StrLess(a, b) && StrLess(b, a))
    decreases |a|
  {
    if |a| > 0 && |b| > 0 && a[0] == b[0] {
      StrLessTrichotomy(a[1..], b[1..]);
      if a[1..] == b[1..] {
        assert a == [a[0]] + a[1..] && b == [b[0]] + b[1..];
      }
    }
  }

  lemma {:induction false} StrLessTransitive(a: string, b: string, c: string)
    requires StrLess(a, b) && StrLess(b, c)
    ensures StrLess(a, c)
    decreases |a|
  {
    if |a| > 0 && a[0] == b[0] && b[0] == c[0] {
      StrLessTransitive(a[1..], b[1..], c[1..]);
    }
  }

  // ---------------------------------------------------------------------------
  // Comparing two clients on one column.

  /** `a[key] < b[key]`. */
  predicate KeyLess(a: ClientRecord, b: ClientRecord, k: SortKey) {
    match k
    case Cliente => StrLess(a.cliente, b.cliente)
    case LastPurchaseDate => StrLess(a.lastPurchaseDate, b.lastPurchaseDate)
    case AverageTicketValue => a.averageTicketValue < b.averageTicketValue
    case TotalRevenue => a.totalRevenue < b.totalRevenue
  }

  /** The two clients hold the same value in the sorted column. */
  predicate SameKey(a: ClientRecord, b: ClientRecord, k: SortKey) {
    match k
    case Cliente => a.cliente == b.cliente
    case LastPurchaseDate => a.lastPurchaseDate == b.lastPurchaseDate
    case AverageTicketValue => a.averageTicketValue == b.averageTicketValue
    case TotalRevenue => a.totalRevenue == b.totalRevenue
  }

  /** On one column, exactly one of "less", "greater" and "same value" holds. */
  lemma KeyTrichotomy(a: ClientRecord, b: ClientRecord, k: SortKey)
    ensures KeyLess(a, b, k) || KeyLess(b, a, k) || SameKey(a, b, k)
    ensures SameKey(a, b, k) ==> !KeyLess(a, b, k) && !KeyLess(b, a, k)
    ensures !(KeyLess(a, b, k) && KeyLess(b, a, k))
  {
    match k
    case Cliente =>
      StrLessTrichotomy(a.cliente, b.cliente);
      StrLessIrreflexive(a.cliente);
    case LastPurchaseDate =>
      StrLessTrichotomy(a.lastPurchaseDate, b.lastPurchaseDate);
      StrLessIrreflexive(a.lastPurchaseDate);
    case AverageTicketValue =>
    case TotalRevenue =>
  }

  lemma KeyLessTransitive(a: ClientRecord, b: ClientRecord, c: ClientRecord, k: SortKey)
    requires KeyLess(a, b, k) && KeyLess(b, c, k)
    ensures KeyLess(a, c, k)
  {
    match k
    case Cliente => StrLessTransitive(a.cliente, b.cliente, c.cliente);
    case LastPurchaseDate => StrLessTransitive(a.lastPurchaseDate, b.lastPurchaseDate, c.lastPurchaseDate);
    case AverageTicketValue =>
    case TotalRevenue =>
  }

  // ---------------------------------------------------------------------------
  // The comparator handed to Array.prototype.sort.

  /**
   * "`a` may stand before `b`" in the configured direction: under `Asc` the key
   * of `a` is not greater than that of `b`, under `Desc` not smaller.
   */
  predicate Precedes(a: ClientRecord, b: ClientRecord, cfg: SortConfig) {
    if cfg.direction == Asc then !KeyLess(b, a, cfg.key) else !KeyLess(a, b, cfg.key)
  }

  /**
   * The comparator: negative puts `a` first, positive puts `b` first, zero
   * leaves the pair in input order.
   */
  function Compare(a: ClientRecord, b: ClientRecord, cfg: SortConfig): (c: int)
    ensures c == -1 || c == 0 || c == 1
    ensures c <= 0 <==> Precedes(a, b, cfg)
    ensures c == 0 <==> SameKey(a, b, cfg.key)
  {
    KeyTrichotomy(a, b, cfg.key);
    if KeyLess(a, b, cfg.key) then (if cfg.direction == Asc then -1 else 1)
    else if KeyLess(b, a, cfg.key) then (if cfg.direction == Asc then 1 else -1)
    else 0
  }

  /** The comparator is antisymmetric, as Array.prototype.sort requires of a consistent comparator. */
  lemma CompareAntisymmetric(a: ClientRecord, b: ClientRecord, cfg: SortConfig)
    ensures Compare(a, b, cfg) == -Compare(b, a, cfg)
  {
    KeyTrichotomy(a, b, cfg.key);
  }

  /** "May stand before" is a total preorder whose ties are exactly the equal keys. */
  lemma PrecedesTotal(a: ClientRecord, b: ClientRecord, cfg: SortConfig)
    ensures Precedes(a, b, cfg) || Precedes(b, a, cfg)
    ensures Precedes(a, b, cfg) && Precedes(b, a, cfg) <==> SameKey(a, b, cfg.key)
  {
    KeyTrichotomy(a, b, cfg.key);
  }

  lemma PrecedesTransitive(a: ClientRecord, b: ClientRecord, c: ClientRecord, cfg: SortConfig)
    requires Precedes(a, b, cfg) && Precedes(b, c, cfg)
    ensures Precedes(a, c, cfg)
    ensures SameKey(a, c, cfg.key) ==> SameKey(a, b, cfg.key) && SameKey(b, c, cfg.key)
  {
    var k := cfg.key;
    KeyTrichotomy(a, b, k);
    KeyTrichotomy(b, c, k);
    KeyTrichotomy(a, c, k);
    if cfg.direction == Asc {
      if KeyLess(c, a, k) {
        if KeyLess(a, b, k) { KeyLessTransitive(c, a, b, k); }
      }
      if SameKey(a, c, k) && KeyLess(a, b, k) { }
    } else {
      if KeyLess(a, c, k) {
        if KeyLess(b, a, k) { KeyLessTransitive(b, a, c, k); }
      }
    }
  }

  /**
   * Row `x`, which came from input position `ix`, may stand before row `y`,
   * from input position `iy`, in a stable sort: `x` precedes `y`, and if
   * their keys tie, `x` came first in the input.
   */
  ghost predicate Ranked(x: ClientRecord, ix: nat, y: ClientRecord, iy: nat, cfg: SortConfig) {
    Precedes(x, y, cfg) && (SameKey(x, y, cfg.key) ==> ix < iy)
  }

  lemma RankedTransitive(x: ClientRecord, ix: nat, y: ClientRecord, iy: nat, z: ClientRecord, iz: nat, cfg: SortConfig)
    requires Ranked(x, ix, y, iy, cfg) && Ranked(y, iy, z, iz, cfg)
    ensures Ranked(x, ix, z, iz, cfg)
  {
    PrecedesTransitive(x, y, z, cfg);
  }

  /**
   * `sorted` is the stable sort of `clients`: row `i` is input row
   * `origin[i]`, every input row appears once, rows stand in the configured
   * order, and rows with equal keys keep their input order.
   */
  ghost predicate StableSortOf(sorted: seq<ClientRecord>, origin: seq<nat>, clients: seq<ClientRecord>, cfg: SortConfig) {
    && |sorted| == |clients| == |origin|
    && (forall i :: 0 <= i < |sorted| ==> origin[i] < |clients| && sorted[i] == clients[origin[i]])
    && (forall i, j :: 0 <= i < j < |sorted| ==> origin[i] != origin[j])
    && (forall i, j :: 0 <= i < j < |sorted| ==> Precedes(sorted[i], sorted[j], cfg))
    && (forall i, j :: 0 <= i < j < |sorted| && SameKey(sorted[i], sorted[j], cfg.key) ==> origin[i] < origin[j])
  }

  /** Row `p` of `s` is row `origin[p]` of `clients`. */
  ghost predicate Tracks(s: seq<ClientRecord>, origin: seq<nat>, clients: seq<ClientRecord>) {
    && |s| == |origin| == |clients|
    && forall p :: 0 <= p < |s| ==> origin[p] < |clients| && s[p] == clients[origin[p]]
  }

  /** Rows `0..hi` stand in stable order, except possibly row `skip`. */
  ghost predicate RankedExcept(s: seq<ClientRecord>, origin: seq<nat>, hi: nat, skip: int, cfg: SortConfig)
    requires hi <= |s| == |origin|
  {
    forall p, q :: 0 <= p < q < hi && p != skip && q != skip ==> Ranked(s[p], origin[p], s[q], origin[q], cfg)
  }

  /** Row `j` stands in stable order before every row of `j + 1..hi`. */
  ghost predicate RankedBeforeAll(s: seq<ClientRecord>, origin: seq<nat>, j: nat, hi: nat, cfg: SortConfig)
    requires j < hi <= |s| == |origin|
  {
    forall q :: j < q < hi ==> Ranked(s[j], origin[j], s[q], origin[q], cfg)
  }

  /** Rows `i..` are still where the copy put them. */
  ghost predicate Untouched(origin: seq<nat>, i: nat) {
    forall p :: i <= p < |origin| ==> origin[p] == p
  }

  /**
   * The swap of one insertion step: row `j` must follow row `j - 1`, so
   * exchanging them moves the inserted row down one place and keeps the rest
   * of `0..hi` in stable order.
   */
  lemma SwapKeepsRanked(s: seq<ClientRecord>, o: seq<nat>, hi: nat, j: nat, cfg: SortConfig)
    requires 0 < j < hi <= |s| == |o|
    requires Compare(s[j - 1], s[j], cfg) > 0
    requires RankedExcept(s, o, hi, j, cfg) && RankedBeforeAll(s, o, j, hi, cfg)
    ensures var s', o' := s[j - 1 := s[j]][j := s[j - 1]], o[j - 1 := o[j]][j := o[j - 1]];
      RankedExcept(s', o', hi, j - 1, cfg) && RankedBeforeAll(s', o', j - 1, hi, cfg)
  {
    var s', o' := s[j - 1 := s[j]][j := s[j - 1]], o[j - 1 := o[j]][j := o[j - 1]];
    PrecedesTotal(s[j - 1], s[j], cfg);
    forall p, q | 0 <= p < q < hi && p != j - 1 && q != j - 1
      ensures Ranked(s'[p], o'[p], s'[q], o'[q], cfg)
    {
      if q == j {
        assert Ranked(s[p], o[p], s[j - 1], o[j - 1], cfg);
      } else if p == j {
        assert Ranked(s[j - 1], o[j - 1], s[q], o[q], cfg);
      }
    }
    forall q | j - 1 < q < hi
      ensures Ranked(s'[j - 1], o'[j - 1], s'[q], o'[q], cfg)
    {
      if q > j {
        assert Ranked(s[j], o[j], s[q], o[q], cfg);
      }
    }
  }

  /** Exchanging two rows together with their input positions keeps each row tied to its input row. */
  lemma SwapKeepsTracks(s: seq<ClientRecord>, o: seq<nat>, clients: seq<ClientRecord>, j: nat)
    requires 0 < j < |s| && Tracks(s, o, clients)
    ensures Tracks(s[j - 1 := s[j]][j := s[j - 1]], o[j - 1 := o[j]][j := o[j - 1]], clients)
  {
  }

  /**
   * Exchanging the input positions of rows `j - 1` and `j` moves the inserted
   * row's position `i` down one place; every other row of `0..i` still came
   * from before `i` in the input, and rows past `i` are untouched.
   */
  lemma SwapKeepsOrigins(o: seq<nat>, i: nat, j: nat)
    requires 0 < j <= i < |o| && o[j] == i && Untouched(o, i + 1)
    requires forall p :: 0 <= p <= i && p != j ==> o[p] < i
    ensures var o' := o[j - 1 := o[j]][j := o[j - 1]];
      && Untouched(o', i + 1) && o'[j - 1] == i
      && forall p :: 0 <= p <= i && p != j - 1 ==> o'[p] < i
  {
  }

  /**
   * The end of one insertion step: the inserted row `j` has reached the front
   * or a row that may precede it (and, on a tie, came first in the input), so
   * all of `0..hi` is in stable order.
   */
  lemma InsertedRowSettles(s: seq<ClientRecord>, o: seq<nat>, hi: nat, j: nat, cfg: SortConfig)
    requires j < hi <= |s| == |o|
    requires j > 0 ==> Compare(s[j - 1], s[j], cfg) <= 0 && o[j - 1] < o[j]
    requires RankedExcept(s, o, hi, j, cfg) && RankedBeforeAll(s, o, j, hi, cfg)
    ensures RankedExcept(s, o, hi, -1, cfg)
  {
    if j > 0 {
      assert Ranked(s[j - 1], o[j - 1], s[j], o[j], cfg);
      forall p | 0 <= p < j - 1
        ensures Ranked(s[p], o[p], s[j], o[j], cfg)
      {
        RankedTransitive(s[p], o[p], s[j - 1], o[j - 1], s[j], o[j], cfg);
      }
    }
  }

  /** Exchanges row `j` with the row before it. */
  method SwapWithPrevious(a: array<ClientRecord>, j: nat)
    requires 0 < j < a.Length
    modifies a
    ensures a[..] == old(a[..])[j - 1 := old(a[j])][j := old(a[j - 1])]
    ensures multiset(a[..]) == multiset(old(a[..]))
  {
    a[j - 1], a[j] := a[j], a[j - 1];
  }

  /**
   * One pass of the insertion sort: rows `0..i` are in stable order; move row
   * `i` down past every row that must follow it, so that rows `0..i+1` are.
   */
  method InsertRow(a: array<ClientRecord>, i: nat, ghost clients: seq<ClientRecord>, ghost origin0: seq<nat>, cfg: SortConfig)
    returns (ghost origin: seq<nat>)
    requires i < a.Length
    requires Tracks(a[..], origin0, clients) && Untouched(origin0, i)
    requires forall p :: 0 <= p < i ==> origin0[p] < i
    requires RankedExcept(a[..], origin0, i, -1, cfg)
    modifies a
    ensures multiset(a[..]) == multiset(old(a[..]))
    ensures Tracks(a[..], origin, clients) && Untouched(origin, i + 1)
    ensures forall p :: 0 <= p <= i ==> origin[p] <= i
    ensures RankedExcept(a[..], origin, i + 1, -1, cfg)
  {
    origin := origin0;
    var j := i;
    while j > 0 && Compare(a[j - 1], a[j], cfg) > 0
      invariant 0 <= j <= i
      invariant multiset(a[..]) == multiset(old(a[..]))
      invariant Tracks(a[..], origin, clients) && Untouched(origin, i + 1)
      invariant origin[j] == i
      invariant forall p :: 0 <= p <= i && p != j ==> origin[p] < i
      invariant RankedExcept(a[..], origin, i + 1, j, cfg)
      invariant RankedBeforeAll(a[..], origin, j, i + 1, cfg)
    {
      ghost var s, o := a[..], origin;
      SwapWithPrevious(a, j);
      origin := origin[j - 1 := o[j]][j := o[j - 1]];
      SwapKeepsTracks(s, o, clients, j);
      SwapKeepsOrigins(o, i, j);
      SwapKeepsRanked(s, o, i + 1, j, cfg);
      j := j - 1;
    }
    InsertedRowSettles(a[..], origin, i + 1, j, cfg);
  }

  /**
   * Rows tied to the input rows and all in stable order form a stable sort:
   * two rows never come from the same input row, because rows with equal
   * keys are ordered by input position.
   */
  lemma RankedRowsAreStable(s: seq<ClientRecord>, origin: seq<nat>, clients: seq<ClientRecord>, cfg: SortConfig)
    requires Tracks(s, origin, clients) && RankedExcept(s, origin, |s|, -1, cfg)
    ensures StableSortOf(s, origin, clients, cfg)
  {
    forall p, q | 0 <= p < q < |s|
      ensures origin[p] != origin[q]
    {
      assert Ranked(s[p], origin[p], s[q], origin[q], cfg);
      if origin[p] == origin[q] {
        assert SameKey(s[p], s[q], cfg.key);
      }
    }
  }

  /**
   * `[...clients].sort(comparator)`: sorts a copy, so the caller's list is
   * untouched, and returns a stably sorted permutation of it. The ghost
   * `origin` names, for each output row, the input row it is.
   */
  method SortClients(clients: seq<ClientRecord>, cfg: SortConfig) returns (sorted: seq<ClientRecord>, ghost origin: seq<nat>)
    ensures multiset(sorted) == multiset(clients)
    ensures StableSortOf(sorted, origin, clients, cfg)
  {
    var n := |clients|;
    var a := new ClientRecord[n](i requires 0 <= i < n => clients[i]);
    origin := seq(n, (i: nat) => i);
    assert a[..] == clients;
    var i := 0;
    while i < n
      invariant 0 <= i <= n
      invariant multiset(a[..]) == multiset(clients)
      invariant Tracks(a[..], origin, clients) && Untouched(origin, i)
      invariant forall p :: 0 <= p < i ==> origin[p] < i
      invariant RankedExcept(a[..], origin, i, -1, cfg)
    {
      origin := InsertRow(a, i, clients, origin, cfg);
      i := i + 1;
    }
    sorted := a[..];
    RankedRowsAreStable(sorted, origin, clients, cfg);
  }

  /**
   * What the sorted table looks like row by row: under `Desc` the key never
   * increases from one row to the next, under `Asc` it never decreases.
   */
  lemma SortedAdjacentRows(sorted: seq<ClientRecord>, origin: seq<nat>, clients: seq<ClientRecord>, cfg: SortConfig, i: nat)
    requires StableSortOf(sorted, origin, clients, cfg)
    requires i + 1 < |sorted|
    ensures cfg.direction == Desc ==> !KeyLess(sorted[i], sorted[i + 1], cfg.key)
    ensures cfg.direction == Asc ==> !KeyLess(sorted[i + 1], sorted[i], cfg.key)
  {
    assert Precedes(sorted[i], sorted[i + 1], cfg);
  }

  // ---------------------------------------------------------------------------
  // The header click handler.

  /**
   * `requestSort(key)`: clicking the active column while it is descending
   * switches it to ascending; every other click sorts the clicked column
   * descending.
   */
  function RequestSort(cfg: SortConfig, key: SortKey): (next: SortConfig)
    ensures next.key == key
    ensures next.direction == Asc <==> cfg.key == key && cfg.direction == Desc
  {
    var direction := if cfg.key == key && cfg.direction == Desc then Asc else Desc;
    SortConfig(key, direction)
  }

  /** Clicking the active column twice restores its direction; a new column always starts descending. */
  lemma RequestSortToggles(cfg: SortConfig, key: SortKey)
    ensures cfg.key == key ==> RequestSort(RequestSort(cfg, key), key) == cfg
    ensures cfg.key == key ==> RequestSort(cfg, key).direction != cfg.direction
    ensures cfg.key != key ==> RequestSort(cfg, key) == SortConfig(key, Desc)
  {
  }
}
