/** The country filter and per-country tally of `generate_mmdb` in
    scripts/Country_mmdb.py: one pass over the `(network, record)` pairs that
    the MMDB reader yields, keeping the pairs whose country code is wanted. */
module CountryMmdb {
  import opened Common

  /** `DEFAULT_COUNTRIES`, the countries extracted when none are given. */
  const DefaultCountries: seq<string> := ["CN", "HK", "US", "JP", "SG"]

  /** A decoded MMDB record: `None` for a null record, otherwise a dictionary
      whose entries (such as `country`) are dictionaries of strings. */
  type Record = Option<map<string, map<string, string>>>

  /** A network, in its `str(network)` form, with its record. */
  type Pair = (string, Record)

  /** The record is truthy and has a `country` entry. */
  predicate HasCountry(rec: Record)
  {
    rec.Some? && rec.value != map[] && "country" in rec.value
  }

  /** `data['country'].get('iso_code', '')`. */
  function IsoCode(rec: Record): string
    requires HasCountry(rec)
  {
    var country := rec.value["country"];
    if "iso_code" in country then country["iso_code"] else ""
  }

  /** Whether the loop keeps a record. */
  predicate Keeps(rec: Record, targets: set<string>)
  {
    HasCountry(rec) && IsoCode(rec) in targets
  }

  /** `set(countries)`. */
  function TargetSet(countries: seq<string>): set<string>
  {
    set c | c in countries
  }

  /** One step of the loop: the pair itself when it is kept, else `None`. */
  function KeepStep(targets: set<string>): Pair -> Option<Pair>
  {
    (p: Pair) => if Keeps(p.1, targets) then Some(p) else None
  }

  /** The pairs the loop keeps, in input order. */
  function Kept(pairs: seq<Pair>, targets: set<string>): seq<Pair>
  {
    FilterMap(pairs, KeepStep(targets))
  }

  /** The number of pairs in `pairs` whose record has country code `c`. */
  function CountCode(pairs: seq<Pair>, c: string): nat
  {
    if pairs == [] then 0
    else
      var last := pairs[|pairs| - 1];
      CountCode(pairs[..|pairs| - 1], c) + (if HasCountry(last.1) && IsoCode(last.1) == c then 1 else 0)
  }

  /** The per-country tally of a kept list: one key per target code. */
  function Tally(kept: seq<Pair>, targets: set<string>): map<string, nat>
  {
    map c | c in targets :: CountCode(kept, c)
  }

  /** The sum of a tally's values. */
  ghost function TotalOf(m: map<string, nat>): nat
    decreases |m|
  {
    if m == map[] then 0
    else
      var k :| k in m;
      assert |(m - {k}).Keys| < |m.Keys| by { assert m.Keys == (m - {k}).Keys + {k}; }
      m[k] + TotalOf(m - {k})
  }

  /** The loop of `generate_mmdb`: count every pair in `total`, skip empty
      records and records without a country, keep the rest whose ISO code is
      a target, and tally the kept pairs per target code in `stats`, whose keys
      are exactly the targets, each starting at 0. */
  method FilterCountries(reader: seq<Pair>, countries: seq<string>)
    returns (kept: seq<Pair>, stats: map<string, nat>, total: nat)
    ensures total == |reader|
    ensures kept == Kept(reader, TargetSet(countries))
    ensures stats.Keys == TargetSet(countries)
    ensures forall c :: c in stats ==> stats[c] == CountCode(kept, c)
    ensures |kept| <= total
    ensures TotalOf(stats) == |kept|
  {
    var targets := TargetSet(countries);
    kept := [];
    stats := map c | c in targets :: 0;
    total := 0;
    for i := 0 to |reader|
      invariant total == i
      invariant kept == Kept(reader[..i], targets)
      invariant |kept| <= i
      invariant stats == Tally(kept, targets)
    {
      assert reader[..i + 1][..i] == reader[..i];
      var (network, data) := reader[i];
      total := total + 1;
      if data.None? || data.value == map[] || "country" !in data.value {
        continue;
      }
      var country := data.value["country"];
      var code := if "iso_code" in country then country["iso_code"] else "";
      if code in targets {
        TallyAppend(kept, (network, data), targets);
        kept := kept + [(network, data)];
        stats := stats[code := stats[code] + 1];
      }
    }
    assert reader[..|reader|] == reader;
    TallySumsToKept(reader, targets);
  }

  /** Appending a kept pair raises its own code's count by one and no other. */
  lemma TallyAppend(kept: seq<Pair>, p: Pair, targets: set<string>)
    requires Keeps(p.1, targets)
    ensures Tally(kept + [p], targets) == Tally(kept, targets)[IsoCode(p.1) := Tally(kept, targets)[IsoCode(p.1)] + 1]
  {
  }

  /** A pair is kept exactly when its record has a country whose ISO code is
      a target, and the kept pairs keep their input order: `idx` places each
      kept pair at its input position. */
  lemma KeptSelection(pairs: seq<Pair>, targets: set<string>) returns (idx: seq<nat>)
    ensures |idx| == |Kept(pairs, targets)|
    ensures IncreasingBelow(idx, |pairs|)
    ensures forall k {:trigger Kept(pairs, targets)[k]} :: 0 <= k < |idx| ==> Kept(pairs, targets)[k] == pairs[idx[k]]
    ensures forall i :: 0 <= i < |pairs| ==> (Keeps(pairs[i].1, targets) <==> i in idx)
  {
    idx := FilterMapSelection(pairs, KeepStep(targets));
  }

  /** Every kept pair has a country whose ISO code is a target, so the
      `stats[country_code] += 1` update never meets a missing key. */
  lemma KeptAreTargets(pairs: seq<Pair>, targets: set<string>)
    ensures forall k :: 0 <= k < |Kept(pairs, targets)| ==> Keeps(Kept(pairs, targets)[k].1, targets)
  {
    var idx := KeptSelection(pairs, targets);
    forall k | 0 <= k < |Kept(pairs, targets)| ensures Keeps(Kept(pairs, targets)[k].1, targets) {
      assert Kept(pairs, targets)[k] == pairs[idx[k]];
    }
  }

  /** A pair whose record is null, empty or lacks `country` is never kept and
      changes no count. */
  lemma SkippedChangesNothing(pairs: seq<Pair>, p: Pair, targets: set<string>)
    requires !HasCountry(p.1)
    ensures Kept(pairs + [p], targets) == Kept(pairs, targets)
    ensures Tally(Kept(pairs + [p], targets), targets) == Tally(Kept(pairs, targets), targets)
  {
  }

  /** A record whose `country` has no `iso_code` carries the code `""`: it is
      kept exactly when `""` is one of the targets. */
  lemma MissingIsoCodeIsEmpty(rec: Record, targets: set<string>)
    requires HasCountry(rec) && "iso_code" !in rec.value["country"]
    ensures Keeps(rec, targets) <==> "" in targets
  {
  }

  /** Removing any one key splits the sum the same way, whichever key
      `TotalOf` chose. */
  lemma {:induction false} TotalOfRemove(m: map<string, nat>, k: string)
    requires k in m
    ensures TotalOf(m) == m[k] + TotalOf(m - {k})
    decreases |m|
  {
    var j :| j in m && TotalOf(m) == m[j] + TotalOf(m - {j});
    if j != k {
      assert |(m - {j}).Keys| < |m.Keys| by { assert m.Keys == (m - {j}).Keys + {j}; }
      assert |(m - {k}).Keys| < |m.Keys| by { assert m.Keys == (m - {k}).Keys + {k}; }
      TotalOfRemove(m - {j}, k);
      TotalOfRemove(m - {k}, j);
      assert m - {j} - {k} == m - {k} - {j};
    }
  }

  /** A tally of all zeros sums to zero. */
  lemma {:induction false} TotalOfZeros(m: map<string, nat>)
    requires forall c :: c in m ==> m[c] == 0
    ensures TotalOf(m) == 0
    decreases |m|
  {
    if m != map[] {
      var k :| k in m;
      TotalOfRemove(m, k);
      assert |(m - {k}).Keys| < |m.Keys| by { assert m.Keys == (m - {k}).Keys + {k}; }
      TotalOfZeros(m - {k});
    }
  }

  /** Raising one key by one raises the sum by one. */
  lemma TotalOfIncrement(m: map<string, nat>, k: string)
    requires k in m
    ensures TotalOf(m[k := m[k] + 1]) == TotalOf(m) + 1
  {
    var m' := m[k := m[k] + 1];
    TotalOfRemove(m, k);
    TotalOfRemove(m', k);
    assert m' - {k} == m - {k};
  }

  /** The per-country counts add up to the number of kept pairs. */
  lemma {:induction false} TallySumsToKept(pairs: seq<Pair>, targets: set<string>)
    ensures TotalOf(Tally(Kept(pairs, targets), targets)) == |Kept(pairs, targets)|
  {
    if pairs == [] {
      TotalOfZeros(Tally([], targets));
    } else {
      var n := |pairs| - 1;
      var p := pairs[n];
      TallySumsToKept(pairs[..n], targets);
      var before := Kept(pairs[..n], targets);
      if Keeps(p.1, targets) {
        assert Kept(pairs, targets) == before + [p];
        TallyAppend(before, p, targets);
        TotalOfIncrement(Tally(before, targets), IsoCode(p.1));
      } else {
        assert Kept(pairs, targets) == before;
      }
    }
  }

  /** With `DEFAULT_COUNTRIES`, the tally has exactly the keys CN, HK, US, JP
      and SG, and every kept pair carries one of those codes. */
  lemma DefaultCountriesTargets(pairs: seq<Pair>)
    ensures Tally(Kept(pairs, TargetSet(DefaultCountries)), TargetSet(DefaultCountries)).Keys == {"CN", "HK", "US", "JP", "SG"}
    ensures forall k :: 0 <= k < |Kept(pairs, TargetSet(DefaultCountries))| ==>
      var rec := Kept(pairs, TargetSet(DefaultCountries))[k].1;
      HasCountry(rec) && IsoCode(rec) in {"CN", "HK", "US", "JP", "SG"}
  {
    assert TargetSet(DefaultCountries) == {"CN", "HK", "US", "JP", "SG"};
    KeptAreTargets(pairs, TargetSet(DefaultCountries));
  }

  /** The targets depend only on which codes are listed, so listing a code
      twice, or in another order, changes neither the kept list nor the tally. */
  lemma DuplicatesIrrelevant(pairs: seq<Pair>, a: seq<string>, b: seq<string>)
    requires forall c :: c in a <==> c in b
    ensures Kept(pairs, TargetSet(a)) == Kept(pairs, TargetSet(b))
    ensures Tally(Kept(pairs, TargetSet(a)), TargetSet(a)) == Tally(Kept(pairs, TargetSet(b)), TargetSet(b))
  {
    assert TargetSet(a) == TargetSet(b);
  }
}
