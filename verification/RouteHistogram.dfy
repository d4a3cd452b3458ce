/** Expert-route histograms: the canary tallies "layer:i/expert:j" keys from
    routed tokens, the freeze check parses such keys back and recovers the number
    of routed tokens. A histogram is a dictionary in insertion order. A payload
    is one row per token, a row one list of expert ids per layer. Rows of the
    wrong depth are skipped and counted as invalid, as are lists of the wrong
    length, repeated ids and ids out of range. */
module RouteHistogram {
  import opened Arithmetic
  import opened Decimal
  import opened FiniteSets
  import opened Wrappers

  // ---------------------------------------------------------------------
  // Keys
  // ---------------------------------------------------------------------

  const LAYER := "layer:"
  const EXPERT := "expert:"

  function KeyOf(layer: nat, expert: nat): string {
    LAYER + Print(layer) + ['/'] + (EXPERT + Print(expert))
  }

  /** Splits at every separator. */
  function Split(s: string, sep: char): (parts: seq<string>)
    ensures parts != []
  {
    if s == [] then [[]]
    else
      var rest := Split(s[1..], sep);
      if s[0] == sep then [[]] + rest else [[s[0]] + rest[0]] + rest[1..]
  }

  function ParseKey(key: string): Option<(nat, nat)> {
    var parts := Split(key, '/');
    if |parts| != 2 || !(LAYER <= parts[0]) || !(EXPERT <= parts[1]) then None
    else
      match (Parse(parts[0][|LAYER|..]), Parse(parts[1][|EXPERT|..]))
      case (Some(layer), Some(expert)) => Some((layer, expert))
      case _ => None
  }

  lemma {:induction false} SplitNone(s: string, sep: char)
    requires sep !in s
    ensures Split(s, sep) == [s]
  {
    if s != [] {
      SplitNone(s[1..], sep);
      assert [s[0]] + s[1..] == s;
    }
  }

  lemma {:induction false} SplitOnce(a: string, b: string, sep: char)
    requires sep !in a && sep !in b
    ensures Split(a + [sep] + b, sep) == [a, b]
  {
    var s := a + [sep] + b;
    if a == [] {
      SplitNone(b, sep);
      assert s[1..] == b;
    } else {
      SplitOnce(a[1..], b, sep);
      assert s[1..] == a[1..] + [sep] + b;
      assert [a[0]] + a[1..] == a;
    }
  }

  /** Printing and parsing a route key round-trips. */
  lemma ParseKeyOf(layer: nat, expert: nat)
    ensures ParseKey(KeyOf(layer, expert))
         == Some((layer, expert))
  {
    var a, b := LAYER + Print(layer), EXPERT + Print(expert);
    assert '/' !in a && '/' !in b by {
      assert '/' !in LAYER && '/' !in EXPERT;
      assert !IsDigit('/');
    }
    SplitOnce(a, b, '/');
    assert LAYER <= a && a[|LAYER|..] == Print(layer);
    assert EXPERT <= b && b[|EXPERT|..] == Print(expert);
    ParsePrint(layer);
    ParsePrint(expert);
  }

  /** Undoes the split. */
  function Join(parts: seq<string>, sep: char): string
    requires parts != []
  {
    if |parts| == 1 then parts[0] else parts[0] + [sep] + Join(parts[1..], sep)
  }

  lemma {:induction false} JoinSplit(s: string, sep: char)
    ensures Join(Split(s, sep), sep) == s
  {
    if s != [] {
      JoinSplit(s[1..], sep);
      var rest := Split(s[1..], sep);
      assert s == [s[0]] + s[1..];
      if s[0] == sep {
        assert ([[]] + rest)[1..] == rest;
      } else {
        var parts := [[s[0]] + rest[0]] + rest[1..];
        assert parts[1..] == rest[1..];
      }
    }
  }

  lemma {:induction false} CutPrefix(prefix: string, s: string)
    requires prefix <= s
    ensures s == prefix + s[|prefix|..]
  {
  }

  lemma {:induction false} PaddedKeyParses(layer: nat, v: nat, expert: nat, w: nat)
    ensures ParseKey(LAYER + Padded(layer, v) + ['/'] + (EXPERT + Padded(expert, w)))
         == Some((layer, expert))
  {
    var a, b := LAYER + Padded(layer, v), EXPERT + Padded(expert, w);
    assert '/' !in LAYER && '/' !in EXPERT && !IsDigit('/');
    SplitOnce(a, b, '/');
    assert a[|LAYER|..] == Padded(layer, v) && b[|EXPERT|..] == Padded(expert, w);
    ParseExact(Padded(layer, v), layer);
    ParseExact(Padded(expert, w), expert);
  }

  /** Exactly the printed keys of a layer and an expert, zero-padded or not, parse
      to them. */
  lemma {:induction false} ParseKeyExact(key: string, layer: nat, expert: nat)
    ensures ParseKey(key) == Some((layer, expert))
       <==> exists v: nat, w: nat :: key == LAYER + Padded(layer, v) + ['/'] + (EXPERT + Padded(expert, w))
  {
    if ParseKey(key) == Some((layer, expert)) {
      var parts := Split(key, '/');
      JoinSplit(key, '/');
      assert parts[1..] == [parts[1]];
      CutPrefix(LAYER, parts[0]);
      CutPrefix(EXPERT, parts[1]);
      ParseExact(parts[0][|LAYER|..], layer);
      ParseExact(parts[1][|EXPERT|..], expert);
      var v: nat :| parts[0][|LAYER|..] == Padded(layer, v);
      var w: nat :| parts[1][|EXPERT|..] == Padded(expert, w);
      assert key == LAYER + Padded(layer, v) + ['/'] + (EXPERT + Padded(expert, w));
    }
    if exists v: nat, w: nat :: key == LAYER + Padded(layer, v) + ['/'] + (EXPERT + Padded(expert, w)) {
      var v: nat, w: nat :| key == LAYER + Padded(layer, v) + ['/'] + (EXPERT + Padded(expert, w));
      PaddedKeyParses(layer, v, expert, w);
    }
  }

  lemma KeyInjective(l1: nat, e1: nat, l2: nat, e2: nat)
    requires KeyOf(l1, e1) == KeyOf(l2, e2)
    ensures l1 == l2 && e1 == e2
  {
    ParseKeyOf(l1, e1);
    ParseKeyOf(l2, e2);
  }

  // ---------------------------------------------------------------------
  // Tallies
  // ---------------------------------------------------------------------

  /** A histogram is a dictionary in insertion order. */
  datatype Entry = Entry(key: string, count: int)

  function Bump(h: seq<Entry>, key: string): seq<Entry> {
    if h == [] then [Entry(key, 1)]
    else if h[0].key == key then [Entry(key, h[0].count + 1)] + h[1..]
    else [h[0]] + Bump(h[1..], key)
  }

  function Tally(keys: seq<string>): seq<Entry> {
    if keys == [] then [] else Bump(Tally(keys[..|keys| - 1]), keys[|keys| - 1])
  }

  function CountOf(h: seq<Entry>, key: string): int {
    if h == [] then 0 else if h[0].key == key then h[0].count else CountOf(h[1..], key)
  }

  predicate InLayer(key: string, layer: nat) {
    ParseKey(key).Some? && ParseKey(key).value.0 == layer
  }

  /** Total count of one layer. */
  function LayerSum(h: seq<Entry>, layer: nat): int {
    if h == [] then 0
    else (if InLayer(h[0].key, layer) then h[0].count else 0) + LayerSum(h[1..], layer)
  }

  function LayerCount(keys: seq<string>, layer: nat): nat {
    if keys == [] then 0
    else LayerCount(keys[..|keys| - 1], layer) + (if InLayer(keys[|keys| - 1], layer) then 1 else 0)
  }

  lemma {:induction false} BumpSum(h: seq<Entry>, key: string, layer: nat)
    ensures LayerSum(Bump(h, key), layer) == LayerSum(h, layer) + if InLayer(key, layer) then 1 else 0
  {
    if h == [] {
      assert LayerSum(Bump(h, key)[1..], layer) == 0;
    } else if h[0].key == key {
      assert Bump(h, key)[1..] == h[1..];
    } else {
      BumpSum(h[1..], key, layer);
      assert Bump(h, key)[1..] == Bump(h[1..], key);
    }
  }

  lemma {:induction false} TallySum(keys: seq<string>, layer: nat)
    ensures LayerSum(Tally(keys), layer)
         == LayerCount(keys, layer)
  {
    if keys != [] {
      TallySum(keys[..|keys| - 1], layer);
      BumpSum(Tally(keys[..|keys| - 1]), keys[|keys| - 1], layer);
    }
  }

  lemma {:induction false} BumpCount(h: seq<Entry>, key: string, other: string)
    ensures CountOf(Bump(h, key), other) == CountOf(h, other) + if key == other then 1 else 0
  {
    if h == [] {
      assert CountOf(Bump(h, key)[1..], other) == 0;
    } else if h[0].key == key {
      assert Bump(h, key)[1..] == h[1..];
    } else {
      BumpCount(h[1..], key, other);
      assert Bump(h, key)[1..] == Bump(h[1..], key);
    }
  }

  /** Each key is counted exactly as often as it occurs. */
  lemma {:induction false} TallyCount(keys: seq<string>, key: string)
    ensures CountOf(Tally(keys), key) == multiset(keys)[key]
  {
    if keys != [] {
      var front, last := keys[..|keys| - 1], keys[|keys| - 1];
      TallyCount(front, key);
      BumpCount(Tally(front), last, key);
      assert keys == front + [last];
    }
  }

  /** Entries of a tally: counted keys, each positive. */
  predicate EntriesFrom(h: seq<Entry>, keys: seq<string>) {
    forall i | 0 <= i < |h| :: h[i].count > 0 && h[i].key in keys
  }

  lemma {:induction false} BumpEntries(h: seq<Entry>, key: string, keys: seq<string>)
    requires EntriesFrom(h, keys) && key in keys
    ensures EntriesFrom(Bump(h, key), keys)
  {
    if h != [] && h[0].key != key {
      BumpEntries(h[1..], key, keys);
    }
  }

  lemma {:induction false} TallyEntries(keys: seq<string>)
    ensures EntriesFrom(Tally(keys), keys)
    ensures keys != [] ==> Tally(keys) != []
  {
    if keys != [] {
      var front := keys[..|keys| - 1];
      TallyEntries(front);
      assert EntriesFrom(Tally(front), keys);
      BumpEntries(Tally(front), keys[|keys| - 1], keys);
    }
  }

  // ---------------------------------------------------------------------
  // Producer
  // ---------------------------------------------------------------------

  type Token = seq<seq<int>>

  /** The experts of one layer: `topK` different ones, all existing. */
  predicate IdsOk(ids: seq<int>, experts: nat, topK: nat) {
    |ids| == topK && Distinct(ids) && AllKnown(ids, experts)
  }

  predicate TokenOk(token: Token, layers: nat, experts: nat, topK: nat) {
    |token| == layers && forall l | 0 <= l < |token| :: IdsOk(token[l], experts, topK)
  }

  predicate RowsOk(rows: seq<Token>, layers: nat, experts: nat, topK: nat) {
    forall r | 0 <= r < |rows| :: TokenOk(rows[r], layers, experts, topK)
  }

  predicate WellRouted(rows: seq<Token>, layers: nat, experts: nat, topK: nat) {
    && rows != [] && layers > 0 && topK > 0
    && RowsOk(rows, layers, experts, topK)
  }

  /** Keys that one layer of one token contributes; bad expert ids contribute
      nothing. */
  function LayerKeys(layer: nat, ids: seq<int>, experts: nat): seq<string> {
    if ids == [] then []
    else
      var last := ids[|ids| - 1];
      LayerKeys(layer, ids[..|ids| - 1], experts) + (if 0 <= last < experts then [KeyOf(layer, last)] else [])
  }

  function TokenKeys(token: Token, experts: nat): seq<string> {
    if token == [] then []
    else TokenKeys(token[..|token| - 1], experts) + LayerKeys(|token| - 1, token[|token| - 1], experts)
  }

  function RowKeys(rows: seq<Token>, layers: nat, experts: nat): seq<string> {
    if rows == [] then []
    else
      var last := rows[|rows| - 1];
      RowKeys(rows[..|rows| - 1], layers, experts) + (if |last| == layers then TokenKeys(last, experts) else [])
  }

  lemma {:induction false} TallyConcat(a: seq<string>, key: string)
    ensures Tally(a + [key]) == Bump(Tally(a), key)
  {
    assert (a + [key])[..|a|] == a;
  }

  predicate AllKnown(ids: seq<int>, experts: nat) {
    forall i | 0 <= i < |ids| :: 0 <= ids[i] < experts
  }

  lemma AllKnownStep(ids: seq<int>, experts: nat, i: nat)
    requires i < |ids|
    ensures AllKnown(ids[..i + 1], experts) <==> AllKnown(ids[..i], experts) && 0 <= ids[i] < experts
  {
    assert ids[..i + 1] == ids[..i] + [ids[i]];
  }

  /** The tally after `done` and one layer's expert ids. */
  function LayerTally(done: seq<string>, layer: nat, ids: seq<int>, experts: nat): seq<Entry> {
    Tally(done + LayerKeys(layer, ids, experts))
  }

  lemma LayerKeysStep(done: seq<string>, layer: nat, ids: seq<int>, experts: nat, i: nat)
    requires i < |ids|
    ensures var before := LayerTally(done, layer, ids[..i], experts);
            LayerTally(done, layer, ids[..i + 1], experts)
              == if 0 <= ids[i] < experts then Bump(before, KeyOf(layer, ids[i])) else before
  {
    assert ids[..i + 1][..i] == ids[..i];
    var keys := LayerKeys(layer, ids[..i], experts);
    if 0 <= ids[i] < experts {
      assert done + (keys + [KeyOf(layer, ids[i])]) == (done + keys) + [KeyOf(layer, ids[i])];
      TallyConcat(done + keys, KeyOf(layer, ids[i]));
    } else {
      assert keys + [] == keys;
    }
  }

  /** Bumps the keys of one layer and counts the expert ids out of range. */
  method BumpLayer(h: seq<Entry>, layer: nat, ids: seq<int>, experts: nat, ghost done: seq<string>)
    returns (r: seq<Entry>, bad: nat)
    requires h == Tally(done)
    ensures r == LayerTally(done, layer, ids, experts)
    ensures bad == 0 <==> AllKnown(ids, experts)
  {
    r, bad := h, 0;
    var i := 0;
    assert LayerTally(done, layer, ids[..0], experts) == h by {
      assert done + LayerKeys(layer, ids[..0], experts) == done;
    }
    while i < |ids|
      invariant 0 <= i <= |ids|
      invariant r == LayerTally(done, layer, ids[..i], experts)
      invariant bad == 0 <==> AllKnown(ids[..i], experts)
    {
      AllKnownStep(ids, experts, i);
      LayerKeysStep(done, layer, ids, experts, i);
      if 0 <= ids[i] < experts {
        r := Bump(r, KeyOf(layer, ids[i]));
      } else {
        bad := bad + 1;
      }
      i := i + 1;
    }
    assert ids[..i] == ids;
  }

  method AuditLayer(h: seq<Entry>, layer: nat, ids: seq<int>, experts: nat, topK: nat, ghost done: seq<string>)
    returns (r: seq<Entry>, invalid: nat)
    requires h == Tally(done)
    ensures r == Tally(done + LayerKeys(layer, ids, experts))
    ensures invalid == 0 <==> IdsOk(ids, experts, topK)
  {
    var unique := set id | id in ids;
    UniqueIsDistinct(ids);
    r, invalid := BumpLayer(h, layer, ids, experts, done);
    if |ids| != topK || |unique| != topK {
      invalid := invalid + 1;
    }
  }

  lemma {:induction false} UniqueIsDistinct(ids: seq<int>)
    ensures |set id | id in ids| <= |ids|
    ensures |set id | id in ids| == |ids| <==> Distinct(ids)
  {
    if ids != [] {
      var front, last := ids[..|ids| - 1], ids[|ids| - 1];
      UniqueIsDistinct(front);
      var a, b := (set id | id in ids), (set id | id in front);
      assert a == b + {last};
      if last in front {
        var k :| 0 <= k < |front| && front[k] == last;
        assert ids[k] == last && !Distinct(ids);
      } else {
        assert |a| == |b| + 1;
        assert Distinct(ids) <==> Distinct(front) by {
          assert forall i | 0 <= i < |front| :: front[i] == ids[i] && front[i] != last;
        }
      }
    }
  }

  predicate LayersOk(token: Token, experts: nat, topK: nat) {
    forall l | 0 <= l < |token| :: IdsOk(token[l], experts, topK)
  }

  lemma TokenStep(done: seq<string>, token: Token, l: nat, experts: nat)
    requires l < |token|
    ensures done + TokenKeys(token[..l + 1], experts)
         == (done + TokenKeys(token[..l], experts)) + LayerKeys(l, token[l], experts)
  {
    assert token[..l + 1][..l] == token[..l];
    var a, b := TokenKeys(token[..l], experts), LayerKeys(l, token[l], experts);
    assert TokenKeys(token[..l + 1], experts) == a + b;
    assert done + (a + b) == (done + a) + b;
  }

  lemma LayersOkStep(token: Token, l: nat, experts: nat, topK: nat)
    requires l < |token|
    ensures LayersOk(token[..l + 1], experts, topK) <==> LayersOk(token[..l], experts, topK) && IdsOk(token[l], experts, topK)
  {
    assert token[..l + 1] == token[..l] + [token[l]];
  }

  method AuditToken(h: seq<Entry>, token: Token, experts: nat, topK: nat, ghost done: seq<string>)
    returns (r: seq<Entry>, invalid: nat)
    requires h == Tally(done)
    ensures r == Tally(done + TokenKeys(token, experts))
    ensures invalid == 0 <==> LayersOk(token, experts, topK)
  {
    r, invalid := h, 0;
    var l := 0;
    assert done + TokenKeys(token[..0], experts) == done;
    while l < |token|
      invariant 0 <= l <= |token|
      invariant r == Tally(done + TokenKeys(token[..l], experts))
      invariant invalid == 0 <==> LayersOk(token[..l], experts, topK)
    {
      TokenStep(done, token, l, experts);
      LayersOkStep(token, l, experts, topK);
      var bad;
      r, bad := AuditLayer(r, l, token[l], experts, topK, done + TokenKeys(token[..l], experts));
      invalid := invalid + bad;
      l := l + 1;
    }
    assert token[..l] == token;
  }

  lemma RowKeysStep(rows: seq<Token>, layers: nat, experts: nat, t: nat)
    requires t < |rows|
    ensures RowKeys(rows[..t + 1], layers, experts)
         == RowKeys(rows[..t], layers, experts) + if |rows[t]| == layers then TokenKeys(rows[t], experts) else []
    ensures |rows[t]| != layers ==> RowKeys(rows[..t + 1], layers, experts) == RowKeys(rows[..t], layers, experts)
  {
    assert rows[..t + 1][..t] == rows[..t];
  }

  lemma RowsOkStep(rows: seq<Token>, t: nat, layers: nat, experts: nat, topK: nat)
    requires t < |rows|
    ensures RowsOk(rows[..t + 1], layers, experts, topK)
       <==> RowsOk(rows[..t], layers, experts, topK) && TokenOk(rows[t], layers, experts, topK)
  {
    assert rows[..t + 1] == rows[..t] + [rows[t]];
  }

  method AuditRow(h: seq<Entry>, rows: seq<Token>, t: nat, layers: nat, experts: nat, topK: nat)
    returns (r: seq<Entry>, bad: nat)
    requires t < |rows| && h == Tally(RowKeys(rows[..t], layers, experts))
    ensures r == Tally(RowKeys(rows[..t + 1], layers, experts))
    ensures bad == 0 <==> TokenOk(rows[t], layers, experts, topK)
    ensures RowsOk(rows[..t + 1], layers, experts, topK)
       <==> RowsOk(rows[..t], layers, experts, topK) && TokenOk(rows[t], layers, experts, topK)
  {
    RowsOkStep(rows, t, layers, experts, topK);
    RowKeysStep(rows, layers, experts, t);
    if |rows[t]| != layers {
      return h, 1;
    }
    r, bad := AuditToken(h, rows[t], experts, topK, RowKeys(rows[..t], layers, experts));
  }

  /** Tallies all rows and counts the invalid ones. */
  method TallyRows(rows: seq<Token>, layers: nat, experts: nat, topK: nat)
    returns (histogram: seq<Entry>, invalid: nat)
    ensures histogram == Tally(RowKeys(rows, layers, experts))
    ensures invalid == 0 <==> RowsOk(rows, layers, experts, topK)
  {
    histogram, invalid := [], 0;
    var t := 0;
    while t < |rows|
      invariant 0 <= t <= |rows|
      invariant histogram == Tally(RowKeys(rows[..t], layers, experts))
      invariant invalid == 0 <==> RowsOk(rows[..t], layers, experts, topK)
    {
      var bad;
      histogram, bad := AuditRow(histogram, rows, t, layers, experts, topK);
      invalid := invalid + bad;
      t := t + 1;
    }
    assert rows[..t] == rows;
  }

  /** Audits live routes: verified exactly for well-routed payloads, and the
      histogram counts exactly the routed keys. */
  method AuditRoutes(rows: seq<Token>, layers: nat, experts: nat, topK: nat)
    returns (verified: bool, histogram: seq<Entry>)
    ensures histogram == Tally(RowKeys(rows, layers, experts))
    ensures verified
       <==> WellRouted(rows, layers, experts, topK)
  {
    var invalid;
    histogram, invalid := TallyRows(rows, layers, experts, topK);
    verified := histogram != [] && invalid == 0 && |LayerIds(histogram)| == layers;
    if invalid == 0 {
      ObservedLayers(rows, layers, experts, topK);
    }
  }

  // ---------------------------------------------------------------------
  // What a well-routed payload tallies to
  // ---------------------------------------------------------------------

  lemma {:induction false} LayerCountConcat(a: seq<string>, b: seq<string>, layer: nat)
    ensures LayerCount(a + b, layer)
         == LayerCount(a, layer) + LayerCount(b, layer)
  {
    if b == [] {
      assert a + b == a;
    } else {
      LayerCountConcat(a, b[..|b| - 1], layer);
      assert (a + b)[..|a + b| - 1] == a + b[..|b| - 1];
    }
  }

  lemma {:induction false} LayerKeysCount(layer: nat, ids: seq<int>, experts: nat, l: nat)
    requires AllKnown(ids, experts)
    ensures LayerCount(LayerKeys(layer, ids, experts), l) == if l == layer then |ids| else 0
  {
    if ids != [] {
      var front, last := ids[..|ids| - 1], ids[|ids| - 1];
      LayerKeysCount(layer, front, experts, l);
      ParseKeyOf(layer, last);
      LayerCountConcat(LayerKeys(layer, front, experts), [KeyOf(layer, last)], l);
      assert LayerCount([KeyOf(layer, last)], l) == if l == layer then 1 else 0 by {
        assert [KeyOf(layer, last)][..0] == [];
      }
    }
  }

  lemma {:induction false} TokenKeysCount(token: Token, experts: nat, topK: nat, l: nat)
    requires forall k | 0 <= k < |token| :: IdsOk(token[k], experts, topK)
    ensures LayerCount(TokenKeys(token, experts), l) == if l < |token| then topK else 0
  {
    if token != [] {
      var n := |token| - 1;
      TokenKeysCount(token[..n], experts, topK, l);
      LayerKeysCount(n, token[n], experts, l);
      LayerCountConcat(TokenKeys(token[..n], experts), LayerKeys(n, token[n], experts), l);
    }
  }

  lemma {:induction false} RowKeysCount(rows: seq<Token>, layers: nat, experts: nat, topK: nat, l: nat)
    requires RowsOk(rows, layers, experts, topK)
    requires l < layers
    ensures LayerCount(RowKeys(rows, layers, experts), l)
         == Times(|rows|, topK)
  {
    if rows != [] {
      var n := |rows| - 1;
      RowKeysCount(rows[..n], layers, experts, topK, l);
      TokenKeysCount(rows[n], experts, topK, l);
      LayerCountConcat(RowKeys(rows[..n], layers, experts), TokenKeys(rows[n], experts), l);
    }
  }

  /** A route key within the model's bounds. */
  predicate KeyOk(key: string, layers: nat, experts: nat) {
    ParseKey(key).Some? && ParseKey(key).value.0 < layers && ParseKey(key).value.1 < experts
  }

  lemma {:induction false} LayerKeysOk(layer: nat, ids: seq<int>, layers: nat, experts: nat)
    requires layer < layers
    ensures forall key | key in LayerKeys(layer, ids, experts) :: KeyOk(key, layers, experts)
  {
    if ids != [] {
      LayerKeysOk(layer, ids[..|ids| - 1], layers, experts);
      var last := ids[|ids| - 1];
      if 0 <= last < experts {
        ParseKeyOf(layer, last);
      }
    }
  }

  lemma {:induction false} TokenKeysOk(token: Token, layers: nat, experts: nat)
    requires |token| <= layers
    ensures forall key | key in TokenKeys(token, experts) :: KeyOk(key, layers, experts)
  {
    if token != [] {
      TokenKeysOk(token[..|token| - 1], layers, experts);
      LayerKeysOk(|token| - 1, token[|token| - 1], layers, experts);
    }
  }

  lemma {:induction false} RowKeysOk(rows: seq<Token>, layers: nat, experts: nat)
    ensures forall key | key in RowKeys(rows, layers, experts) :: KeyOk(key, layers, experts)
  {
    if rows != [] {
      RowKeysOk(rows[..|rows| - 1], layers, experts);
      var last := rows[|rows| - 1];
      if |last| == layers {
        TokenKeysOk(last, layers, experts);
      }
    }
  }

  lemma {:induction false} LayerSumWitness(h: seq<Entry>, layer: nat)
    requires forall i | 0 <= i < |h| :: h[i].count > 0
    ensures LayerSum(h, layer) >= 0
    ensures LayerSum(h, layer) > 0 <==> exists i | 0 <= i < |h| :: InLayer(h[i].key, layer)
  {
    if h != [] {
      LayerSumWitness(h[1..], layer);
      if LayerSum(h[1..], layer) > 0 {
        var i :| 0 <= i < |h[1..]| && InLayer(h[1..][i].key, layer);
        assert InLayer(h[i + 1].key, layer);
      }
      if exists i | 0 <= i < |h| :: InLayer(h[i].key, layer) {
        var i :| 0 <= i < |h| && InLayer(h[i].key, layer);
        assert i > 0 ==> h[1..][i - 1] == h[i];
      }
    }
  }

  lemma WellRoutedSums(rows: seq<Token>, layers: nat, experts: nat, topK: nat, l: nat)
    requires RowsOk(rows, layers, experts, topK)
    requires l < layers
    ensures LayerSum(Tally(RowKeys(rows, layers, experts)), l)
         == Times(|rows|, topK)
  {
    TallySum(RowKeys(rows, layers, experts), l);
    RowKeysCount(rows, layers, experts, topK, l);
  }

  function LayerIds(h: seq<Entry>): set<nat> {
    set i | 0 <= i < |h| && ParseKey(h[i].key).Some? :: ParseKey(h[i].key).value.0
  }

  lemma LayerIdsExact(rows: seq<Token>, layers: nat, experts: nat, topK: nat, l: nat)
    requires RowsOk(rows, layers, experts, topK)
    ensures l in LayerIds(Tally(RowKeys(rows, layers, experts))) <==> l < layers && rows != [] && topK > 0
  {
    var keys := RowKeys(rows, layers, experts);
    var h := Tally(keys);
    TallyEntries(keys);
    LayerSumWitness(h, l);
    TimesPositive(|rows|, topK);
    if l < layers {
      WellRoutedSums(rows, layers, experts, topK, l);
    } else {
      RowKeysOk(rows, layers, experts);
    }
  }

  lemma {:induction false} ObservedLayers(rows: seq<Token>, layers: nat, experts: nat, topK: nat)
    requires RowsOk(rows, layers, experts, topK)
    ensures var h := Tally(RowKeys(rows, layers, experts));
            h != [] && |LayerIds(h)| == layers <==> rows != [] && layers > 0 && topK > 0
  {
    var h := Tally(RowKeys(rows, layers, experts));
    forall l: nat ensures l in LayerIds(h) <==> l < layers && rows != [] && topK > 0 {
      LayerIdsExact(rows, layers, experts, topK, l);
    }
    if rows != [] && topK > 0 {
      assert LayerIds(h) == Range(layers);
      assert layers > 0 ==> 0 in LayerIds(h);
      if layers == 0 && h != [] {
        FirstLayer(rows, layers, experts);
      }
    } else if h != [] {
      FirstLayer(rows, layers, experts);
    }
  }

  /** A tally that is not empty shows some layer. */
  lemma {:induction false} FirstLayer(rows: seq<Token>, layers: nat, experts: nat)
    requires Tally(RowKeys(rows, layers, experts)) != []
    ensures exists l: nat :: l in LayerIds(Tally(RowKeys(rows, layers, experts)))
  {
    var keys := RowKeys(rows, layers, experts);
    var h := Tally(keys);
    TallyEntries(keys);
    RowKeysOk(rows, layers, experts);
    assert KeyOk(h[0].key, layers, experts);
    assert ParseKey(h[0].key).value.0 in LayerIds(h);
  }

  // ---------------------------------------------------------------------
  // Consumer
  // ---------------------------------------------------------------------

  /** What the engine says about the routes of a request. */
  datatype Metadata = Metadata(available: bool, source: string, kind: string, histogram: seq<Entry>)

  /** The routes were observed at run time. */
  predicate Live(m: Metadata) {
    m.available && m.source == "vllm_runtime_topk" && m.kind == "runtime_observed_topk"
  }

  /** The freeze check accepts the metadata. */
  predicate RoutesOk(m: Metadata, layers: nat, experts: nat, topK: nat) {
    Live(m) && Acceptable(m.histogram, layers, experts, topK)
  }

  /** A histogram the freeze check accepts: parsable keys within bounds, positive
      counts, and the same positive multiple of `topK` in every layer. */
  predicate Acceptable(h: seq<Entry>, layers: nat, experts: nat, topK: nat) {
    && h != [] && topK > 0
    && EntriesOk(h, layers, experts)
    && SameTotals(h, layers)
    && LayerSum(h, 0) > 0 && LayerSum(h, 0) % topK == 0
  }

  predicate SameTotals(h: seq<Entry>, layers: nat) {
    forall l | 0 <= l < layers :: LayerSum(h, l) == LayerSum(h, 0)
  }

  /** Tokens behind one layer's total, each of which reached `topK` experts. */
  function RoutedTokens(total: int, topK: nat): Option<nat>
    requires topK > 0
  {
    if total > 0 && total % topK == 0 then Some(total / topK) else None
  }

  lemma {:induction false} LayerSumAppend(h: seq<Entry>, e: Entry, layer: nat)
    ensures LayerSum(h + [e], layer) == LayerSum(h, layer) + if InLayer(e.key, layer) then e.count else 0
  {
    if h == [] {
      assert (h + [e])[1..] == [];
    } else {
      LayerSumAppend(h[1..], e, layer);
      assert (h + [e])[1..] == h[1..] + [e];
    }
  }

  predicate TotalsOf(totals: map<nat, int>, h: seq<Entry>) {
    forall l | l in totals :: totals[l] == LayerSum(h, l)
  }

  lemma TotalsStep(h: seq<Entry>, i: nat, totals: map<nat, int>, layer: nat)
    requires i < |h| && layer in totals && InLayer(h[i].key, layer) && TotalsOf(totals, h[..i])
    ensures TotalsOf(totals[layer := totals[layer] + h[i].count], h[..i + 1])
  {
    assert h[..i + 1] == h[..i] + [h[i]];
    forall l | l in totals
      ensures LayerSum(h[..i + 1], l) == LayerSum(h[..i], l) + if l == layer then h[i].count else 0
    {
      LayerSumAppend(h[..i], h[i], l);
    }
  }

  predicate EntryOk(e: Entry, layers: nat, experts: nat) {
    KeyOk(e.key, layers, experts) && e.count > 0
  }

  /** An entry is good exactly when its key prints a layer and an expert within
      bounds and its count is positive. */
  lemma {:induction false} EntryExact(e: Entry, layers: nat, experts: nat)
    ensures EntryOk(e, layers, experts) <==>
              && e.count > 0
              && exists l: nat, x: nat, v: nat, w: nat ::
                   l < layers && x < experts && e.key == LAYER + Padded(l, v) + ['/'] + (EXPERT + Padded(x, w))
  {
    if ParseKey(e.key).Some? {
      var (l, x) := ParseKey(e.key).value;
      ParseKeyExact(e.key, l, x);
      var v: nat, w: nat :| e.key == LAYER + Padded(l, v) + ['/'] + (EXPERT + Padded(x, w));
      if EntryOk(e, layers, experts) {
        assert l < layers && x < experts;
      }
    }
    if exists l: nat, x: nat, v: nat, w: nat ::
         l < layers && x < experts && e.key == LAYER + Padded(l, v) + ['/'] + (EXPERT + Padded(x, w)) {
      var l: nat, x: nat, v: nat, w: nat :|
        l < layers && x < experts && e.key == LAYER + Padded(l, v) + ['/'] + (EXPERT + Padded(x, w));
      ParseKeyExact(e.key, l, x);
    }
  }

  predicate EntriesOk(h: seq<Entry>, layers: nat, experts: nat) {
    forall i | 0 <= i < |h| :: EntryOk(h[i], layers, experts)
  }

  lemma EntriesStep(h: seq<Entry>, i: nat, layers: nat, experts: nat)
    requires i < |h| && EntriesOk(h[..i], layers, experts)
    ensures EntriesOk(h[..i + 1], layers, experts)
       <==> EntryOk(h[i], layers, experts)
    ensures !EntryOk(h[i], layers, experts) ==> !EntriesOk(h, layers, experts)
  {
    assert h[..i + 1] == h[..i] + [h[i]];
  }

  method AddEntry(totals: map<nat, int>, h: seq<Entry>, i: nat, layers: nat, experts: nat)
    returns (ok: bool, r: map<nat, int>)
    requires i < |h| && totals.Keys == Range(layers) && TotalsOf(totals, h[..i])
    ensures ok <==> EntryOk(h[i], layers, experts)
    ensures ok ==> r.Keys == Range(layers) && TotalsOf(r, h[..i + 1])
  {
    var parsed := ParseKey(h[i].key);
    if parsed.None? {
      return false, totals;
    }
    var (layer, expert) := parsed.value;
    if layer !in totals || expert >= experts || h[i].count <= 0 {
      return false, totals;
    }
    TotalsStep(h, i, totals, layer);
    ok, r := true, totals[layer := totals[layer] + h[i].count];
  }

  /** Sums the counts of each layer; refuses the first bad entry. */
  method LayerTotals(h: seq<Entry>, layers: nat, experts: nat) returns (ok: bool, totals: map<nat, int>)
    ensures ok <==> EntriesOk(h, layers, experts)
    ensures ok ==> totals.Keys == Range(layers) && TotalsOf(totals, h)
  {
    ok, totals := true, map l | l in Range(layers) :: 0;
    var i := 0;
    while i < |h|
      invariant 0 <= i <= |h|
      invariant EntriesOk(h[..i], layers, experts)
      invariant ok && totals.Keys == Range(layers) && TotalsOf(totals, h[..i])
    {
      ok, totals := AddEntry(totals, h, i, layers, experts);
      EntriesStep(h, i, layers, experts);
      if !ok {
        return;
      }
      i := i + 1;
    }
    assert h[..i] == h;
  }

  /** Validates a live route histogram and recovers the routed-token count. */
  method ValidateRouteHistogram(m: Metadata, layers: nat, experts: nat, topK: nat) returns (r: Option<nat>)
    ensures r.Some? <==> RoutesOk(m, layers, experts, topK)
    ensures r.Some? ==> forall l: nat | l < layers :: LayerSum(m.histogram, l) == Times(r.value, topK)
  {
    if !m.available || m.source != "vllm_runtime_topk" || m.kind != "runtime_observed_topk" {
      return None;
    }
    r := ValidateHistogram(m.histogram, layers, experts, topK);
  }

  method ValidateHistogram(h: seq<Entry>, layers: nat, experts: nat, topK: nat) returns (r: Option<nat>)
    ensures r.Some? <==> Acceptable(h, layers, experts, topK)
    ensures r.Some? ==> forall l: nat | l < layers :: LayerSum(h, l) == Times(r.value, topK)
  {
    var ok, totals := LayerTotals(h, layers, experts);
    if !ok || h == [] || topK == 0 {
      return None;
    }
    assert EntryOk(h[0], layers, experts);
    var equal := forall l | l in totals :: totals[l] == totals[0];
    assert equal <==> SameTotals(h, layers) by {
      assert forall l: nat | l < layers :: l in totals;
    }
    r := if equal then RoutedTokens(totals[0], topK) else None;
    if r.Some? {
      QuotientTimes(totals[0], topK);
    }
  }

  /** Producer and consumer agree: the histogram of every payload that the
      canary verifies is accepted by the freeze check, which recovers exactly
      the number of routed token rows. */
  lemma RouteAgreement(rows: seq<Token>, layers: nat, experts: nat, topK: nat)
    requires WellRouted(rows, layers, experts, topK)
    ensures var h := Tally(RowKeys(rows, layers, experts));
            Acceptable(h, layers, experts, topK) && LayerSum(h, 0) == Times(|rows|, topK)
  {
    var keys := RowKeys(rows, layers, experts);
    var h := Tally(keys);
    TallyEntries(keys);
    RowKeysOk(rows, layers, experts);
    forall l: nat | l < layers ensures LayerSum(h, l) == Times(|rows|, topK) {
      WellRoutedSums(rows, layers, experts, topK, l);
    }
    TimesPositive(|rows|, topK);
    TimesQuotient(|rows|, topK);
  }

  /** The producer and then the consumer, on the producer's histogram under any
      flags: what the canary verifies is accepted exactly when the flags say that
      the routes are live, with the number of rows. */
  method AuditThenValidate(rows: seq<Token>, layers: nat, experts: nat, topK: nat, flags: Metadata)
    returns (verified: bool, routed: Option<nat>)
    ensures verified
       <==> WellRouted(rows, layers, experts, topK)
    ensures verified ==> routed == if Live(flags) then Some(|rows|) else None
  {
    var histogram;
    verified, histogram := AuditRoutes(rows, layers, experts, topK);
    routed := ValidateRouteHistogram(flags.(histogram := histogram), layers, experts, topK);
    if verified {
      RouteAgreement(rows, layers, experts, topK);
      if routed.Some? {
        TimesInjective(routed.value, |rows|, topK);
      }
    }
  }

  // ---------------------------------------------------------------------
  // Every expert is counted as often as it was routed to
  // ---------------------------------------------------------------------

  /** How often layer `l` of these rows names expert `e`; rows of another depth
      are not looked at. */
  function Routed(rows: seq<Token>, layers: nat, l: nat, e: nat): nat {
    if rows == [] then 0
    else
      var last := rows[|rows| - 1];
      Routed(rows[..|rows| - 1], layers, l, e) + if |last| == layers && l < layers then multiset(last[l])[e] else 0
  }

  lemma {:induction false} LayerKeysExact(layer: nat, ids: seq<int>, experts: nat, l: nat, e: nat)
    ensures multiset(LayerKeys(layer, ids, experts))[KeyOf(l, e)]
         == if l == layer && e < experts then multiset(ids)[e] else 0
  {
    if ids != [] {
      var front, last := ids[..|ids| - 1], ids[|ids| - 1];
      LayerKeysExact(layer, front, experts, l, e);
      assert multiset(ids)[e] == multiset(front)[e] + if last == e then 1 else 0 by {
        assert ids == front + [last];
      }
      if 0 <= last < experts {
        OneKey(layer, last, l, e);
        KeysConcat(LayerKeys(layer, front, experts), [KeyOf(layer, last)], KeyOf(l, e));
      } else {
        assert LayerKeys(layer, ids, experts) == LayerKeys(layer, front, experts);
      }
    }
  }

  lemma {:induction false} OneKey(layer: nat, expert: nat, l: nat, e: nat)
    ensures multiset([KeyOf(layer, expert)])[KeyOf(l, e)] == if l == layer && e == expert then 1 else 0
  {
    if KeyOf(layer, expert) == KeyOf(l, e) {
      KeyInjective(layer, expert, l, e);
    }
  }

  lemma {:induction false} KeysConcat(a: seq<string>, b: seq<string>, key: string)
    ensures multiset(a + b)[key]
         == multiset(a)[key] + multiset(b)[key]
  {
  }

  lemma {:induction false} TokenKeysExact(token: Token, experts: nat, l: nat, e: nat)
    ensures multiset(TokenKeys(token, experts))[KeyOf(l, e)]
         == if l < |token| && e < experts then multiset(token[l])[e] else 0
  {
    if token != [] {
      var n := |token| - 1;
      TokenKeysExact(token[..n], experts, l, e);
      LayerKeysExact(n, token[n], experts, l, e);
      KeysConcat(TokenKeys(token[..n], experts), LayerKeys(n, token[n], experts), KeyOf(l, e));
    }
  }

  lemma {:induction false} RowKeysExact(rows: seq<Token>, layers: nat, experts: nat, l: nat, e: nat)
    ensures multiset(RowKeys(rows, layers, experts))[KeyOf(l, e)]
         == if e < experts then Routed(rows, layers, l, e) else 0
  {
    if rows != [] {
      var front, last := rows[..|rows| - 1], rows[|rows| - 1];
      RowKeysExact(front, layers, experts, l, e);
      TokenKeysExact(last, experts, l, e);
      KeysConcat(RowKeys(front, layers, experts), if |last| == layers then TokenKeys(last, experts) else [], KeyOf(l, e));
    }
  }

  /** For every payload, each expert of each layer is counted exactly as often as
      the payload names it there, and one that does not exist not at all. */
  lemma {:induction false} ExpertCountExact(rows: seq<Token>, layers: nat, experts: nat, l: nat, e: nat)
    ensures CountOf(Tally(RowKeys(rows, layers, experts)), KeyOf(l, e))
         == if e < experts then Routed(rows, layers, l, e) else 0
  {
    RowKeysExact(rows, layers, experts, l, e);
    TallyCount(RowKeys(rows, layers, experts), KeyOf(l, e));
  }

  lemma {:induction false} DistinctOnce(ids: seq<int>, e: int)
    requires Distinct(ids)
    ensures multiset(ids)[e] <= 1
  {
    if ids != [] {
      var front, last := ids[..|ids| - 1], ids[|ids| - 1];
      DistinctOnce(front, e);
      assert ids == front + [last] && last !in front;
    }
  }

  lemma {:induction false} RoutedBound(rows: seq<Token>, layers: nat, experts: nat, topK: nat, l: nat, e: nat)
    requires RowsOk(rows, layers, experts, topK)
    ensures Routed(rows, layers, l, e) <= |rows|
  {
    if rows != [] {
      var last := rows[|rows| - 1];
      RoutedBound(rows[..|rows| - 1], layers, experts, topK, l, e);
      if l < layers {
        DistinctOnce(last[l], e);
      }
    }
  }

  /** Each expert of each layer is counted at most once per routed token. */
  lemma {:induction false} ExpertCountBound(rows: seq<Token>, layers: nat, experts: nat, topK: nat, l: nat, e: nat)
    requires WellRouted(rows, layers, experts, topK)
    ensures CountOf(Tally(RowKeys(rows, layers, experts)), KeyOf(l, e)) <= |rows|
  {
    ExpertCountExact(rows, layers, experts, l, e);
    RoutedBound(rows, layers, experts, topK, l, e);
  }
}
