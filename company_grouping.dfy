/**
 * The company sidebar of the map page: `groupTransportsByCompany` folds
 * the transports of the visible area into one aggregate per company and
 * sorts them by volume, and `renderCompanies` picks each card's badges
 * and border colour from the aggregate's two role flags.
 *
 * The specification side is written independently of the loop:
 * Names (effective company names in first-encounter order), CountOf and
 * the two existential role predicates; Grouped sorts their aggregates
 * with the stable sort of StableSort.
 */
module CompanyGrouping {
  import opened JsValues
  import opened ApiData
  import StableSort

  /** The name a record without (or with an empty) company name is filed under. */
  const UnknownCompany := "Necunoscut"

  datatype Company = Company(name: string, count: nat, isEmitent: bool, isDestinatar: bool)

  /** `t.company_name || 'Necunoscut'` */
  function EffectiveName(t: TransportRecord): string {
    StrOr(t.companyName, UnknownCompany)
  }

  /** `(t.role || '').toLowerCase()` */
  function NormalizedRole(t: TransportRecord): string {
    AsciiLower(StrOr(t.role, ""))
  }

  predicate IsEmitentRole(t: TransportRecord) {
    NormalizedRole(t) == "emitent"
  }

  predicate IsDestinatarRole(t: TransportRecord) {
    NormalizedRole(t) == "destinatar" || NormalizedRole(t) == "receptor"
  }

  // ---- specification ----

  /** The distinct effective names, each at the place it was first met. */
  function Names(ts: seq<TransportRecord>): seq<string> {
    if ts == [] then []
    else
      var earlier := Names(ts[..|ts| - 1]);
      var n := EffectiveName(ts[|ts| - 1]);
      if n in earlier then earlier else earlier + [n]
  }

  /** The number of records filed under n. */
  function CountOf(ts: seq<TransportRecord>, n: string): nat {
    if ts == [] then 0
    else CountOf(ts[..|ts| - 1], n) + (if EffectiveName(ts[|ts| - 1]) == n then 1 else 0)
  }

  predicate SomeEmitent(ts: seq<TransportRecord>, n: string) {
    exists p | 0 <= p < |ts| :: EffectiveName(ts[p]) == n && IsEmitentRole(ts[p])
  }

  predicate SomeDestinatar(ts: seq<TransportRecord>, n: string) {
    exists p | 0 <= p < |ts| :: EffectiveName(ts[p]) == n && IsDestinatarRole(ts[p])
  }

  /** What the aggregate for company n must hold. */
  function Aggregate(ts: seq<TransportRecord>, n: string): Company {
    Company(n, CountOf(ts, n), SomeEmitent(ts, n), SomeDestinatar(ts, n))
  }

  /** A record whose role is "emitent" in any casing (each letter small or
      capital) files its company as an emitent and not as a destinatar. */
  lemma EmitentInAnyCase(t: TransportRecord)
    requires t.role.Some? && |t.role.value| == 7
    requires forall i :: 0 <= i < 7 ==> t.role.value[i] == "emitent"[i] || t.role.value[i] == "EMITENT"[i]
    ensures Aggregate([t], EffectiveName(t)) == Company(EffectiveName(t), 1, true, false)
  {
    var role := t.role.value;
    forall i | 0 <= i < 7
      ensures AsciiLower(role)[i] == "emitent"[i]
    {
      assert LowerChar("EMITENT"[i]) == "emitent"[i];
      assert LowerChar("emitent"[i]) == "emitent"[i];
    }
    assert StrOr(t.role, "") == role;
    assert NormalizedRole(t) == "emitent";
    assert IsEmitentRole(t) && !IsDestinatarRole(t);
    assert [t][..0] == [];
    assert CountOf([t], EffectiveName(t)) == 1;
    assert !SomeDestinatar([t], EffectiveName(t));
    assert EffectiveName([t][0]) == EffectiveName(t) && IsEmitentRole([t][0]);
  }

  function AggregatesOf(ts: seq<TransportRecord>, names: seq<string>): (r: seq<Company>)
    ensures |r| == |names|
    ensures forall k :: 0 <= k < |names| ==> r[k] == Aggregate(ts, names[k])
  {
    if names == [] then [] else [Aggregate(ts, names[0])] + AggregatesOf(ts, names[1..])
  }

  function CountKey(c: Company): int {
    c.count
  }

  /** The list groupTransportsByCompany returns. */
  function Grouped(ts: seq<TransportRecord>): seq<Company> {
    StableSort.SortDesc(AggregatesOf(ts, Names(ts)), CountKey)
  }

  /** Company a is met in ts before company b is met at all. */
  ghost predicate FirstSeenBefore(ts: seq<TransportRecord>, a: string, b: string) {
    exists p :: 0 <= p < |ts| && EffectiveName(ts[p]) == a &&
      forall q :: 0 <= q <= p ==> EffectiveName(ts[q]) != b
  }

  // ---- the operation ----

  /** groupTransportsByCompany: a dictionary keyed by effective name, filled
      in one pass, then Object.values (insertion order) sorted by count. */
  method GroupTransportsByCompany(transports: seq<TransportRecord>) returns (companies: seq<Company>)
    ensures companies == Grouped(transports)
  {
    var table, order := Tally(transports);
    var values := seq(|order|, k requires 0 <= k < |order| && order[k] in table => table[order[k]]);
    assert values == AggregatesOf(transports, order);
    var a := new Company[|values|](k requires 0 <= k < |values| => values[k]);
    assert a[..] == values;
    StableSort.InsertionSortDesc(a, CountKey);
    companies := a[..];
  }

  /** The `forEach` pass: the dictionary and the order its keys were added in. */
  method Tally(transports: seq<TransportRecord>) returns (table: map<string, Company>, order: seq<string>)
    ensures order == Names(transports)
    ensures forall n :: n in table <==> n in order
    ensures forall n :: n in table ==> table[n] == Aggregate(transports, n)
  {
    table, order := map[], [];
    ghost var seen: seq<TransportRecord> := [];
    var i := 0;
    while i < |transports|
      invariant 0 <= i <= |transports|
      invariant seen == transports[..i]
      invariant order == Names(seen)
      invariant TableMatches(table, order, seen)
    {
      var t := transports[i];
      var companyName := StrOr(t.companyName, UnknownCompany);
      var role := AsciiLower(StrOr(t.role, ""));
      var emitent, destinatar := role == "emitent", role == "destinatar" || role == "receptor";
      assert emitent == IsEmitentRole(t) && destinatar == IsDestinatarRole(t);
      // The entry is created on first sight, then counted and flagged.
      var c := if companyName in table then table[companyName] else Company(companyName, 0, false, false);
      ghost var before, orderBefore, c0 := table, order, c;
      if companyName !in table {
        order := order + [companyName];
      }
      c := c.(count := c.count + 1);
      if emitent {
        c := c.(isEmitent := true);
      }
      if destinatar {
        c := c.(isDestinatar := true);
      }
      TallyStep(before, orderBefore, seen, t, c);
      table := table[companyName := c];
      PrefixSnoc(transports, i);
      seen := seen + [t];
      i := i + 1;
    }
    assert transports[..i] == transports;
  }

  lemma PrefixSnoc<T>(s: seq<T>, i: nat)
    requires i < |s|
    ensures s[..i + 1] == s[..i] + [s[i]]
  {
  }

  /** The dictionary holds exactly the names of order, each with its aggregate over ts. */
  ghost predicate TableMatches(table: map<string, Company>, order: seq<string>, ts: seq<TransportRecord>) {
    && (forall n :: n in table <==> n in order)
    && (forall n :: n in table ==> table[n] == Aggregate(ts, n))
  }

  /** One turn of the forEach keeps the dictionary in step with the records
      read: c is the entry of t's company after the turn. */
  lemma TallyStep(table: map<string, Company>, order: seq<string>, seen: seq<TransportRecord>, t: TransportRecord, c: Company)
    requires order == Names(seen) && TableMatches(table, order, seen)
    requires
      var n := EffectiveName(t);
      var c0 := if n in table then table[n] else Company(n, 0, false, false);
      c == Company(n, c0.count + 1, c0.isEmitent || IsEmitentRole(t), c0.isDestinatar || IsDestinatarRole(t))
    ensures
      var n := EffectiveName(t);
      var order' := if n in table then order else order + [n];
      order' == Names(seen + [t]) && TableMatches(table[n := c], order', seen + [t])
  {
    var n := EffectiveName(t);
    NamesSnoc(seen, t);
    if n !in table {
      NotSeenAggregate(seen, n);
    }
    AggregateSnoc(seen, t, n);
    forall m | m in table && m != n
      ensures table[m] == Aggregate(seen + [t], m)
    {
      AggregateSnoc(seen, t, m);
    }
  }

  // ---- lemmas on the specification ----

  lemma NamesSnoc(ts: seq<TransportRecord>, t: TransportRecord)
    ensures Names(ts + [t]) ==
      if EffectiveName(t) in Names(ts) then Names(ts) else Names(ts) + [EffectiveName(t)]
    ensures forall n :: CountOf(ts + [t], n) == CountOf(ts, n) + (if EffectiveName(t) == n then 1 else 0)
  {
    assert (ts + [t])[..|ts|] == ts;
  }

  /** A name occurs in Names exactly when some record is filed under it. */
  lemma {:induction false} NamesMembership(ts: seq<TransportRecord>, n: string)
    ensures n in Names(ts) <==> exists p :: 0 <= p < |ts| && EffectiveName(ts[p]) == n
    ensures n in Names(ts) <==> CountOf(ts, n) > 0
  {
    if ts != [] {
      var init := ts[..|ts| - 1];
      NamesMembership(init, n);
      assert ts == init + [ts[|ts| - 1]];
      NamesSnoc(init, ts[|ts| - 1]);
      assert forall p :: 0 <= p < |init| ==> init[p] == ts[p];
    }
  }

  lemma {:induction false} NamesDistinct(ts: seq<TransportRecord>)
    ensures StableSort.Distinct(Names(ts))
  {
    if ts != [] {
      var init := ts[..|ts| - 1];
      NamesDistinct(init);
      assert ts == init + [ts[|ts| - 1]];
      NamesSnoc(init, ts[|ts| - 1]);
    }
  }

  /** A company not met so far has an empty aggregate. */
  lemma NotSeenAggregate(ts: seq<TransportRecord>, n: string)
    requires n !in Names(ts)
    ensures Aggregate(ts, n) == Company(n, 0, false, false)
  {
    NamesMembership(ts, n);
  }

  /** One more record adds one to its own company's count and can only
      switch that company's flags on; a role other than emitent,
      destinatar or receptor changes the count alone, and every other
      company is untouched. */
  lemma AggregateSnoc(ts: seq<TransportRecord>, t: TransportRecord, n: string)
    ensures Aggregate(ts + [t], n) ==
      if EffectiveName(t) == n then
        Company(n, CountOf(ts, n) + 1,
                SomeEmitent(ts, n) || IsEmitentRole(t),
                SomeDestinatar(ts, n) || IsDestinatarRole(t))
      else Aggregate(ts, n)
  {
    NamesSnoc(ts, t);
    SomeRoleSnoc(ts, t, n);
  }

  /** The role predicates over one more record. */
  lemma SomeRoleSnoc(ts: seq<TransportRecord>, t: TransportRecord, n: string)
    ensures SomeEmitent(ts + [t], n) <==> SomeEmitent(ts, n) || (EffectiveName(t) == n && IsEmitentRole(t))
    ensures SomeDestinatar(ts + [t], n) <==> SomeDestinatar(ts, n) || (EffectiveName(t) == n && IsDestinatarRole(t))
  {
    var s := ts + [t];
    assert forall p :: 0 <= p < |ts| ==> s[p] == ts[p];
    assert s[|ts|] == t;
    if SomeEmitent(s, n) {
      var p :| 0 <= p < |s| && EffectiveName(s[p]) == n && IsEmitentRole(s[p]);
      assert p < |ts| ==> SomeEmitent(ts, n);
    }
    if SomeDestinatar(s, n) {
      var p :| 0 <= p < |s| && EffectiveName(s[p]) == n && IsDestinatarRole(s[p]);
      assert p < |ts| ==> SomeDestinatar(ts, n);
    }
  }

  lemma {:induction false} SumAggregatesSnoc(ts: seq<TransportRecord>, t: TransportRecord, names: seq<string>)
    requires StableSort.Distinct(names)
    ensures StableSort.SumOf(AggregatesOf(ts + [t], names), CountKey)
         == StableSort.SumOf(AggregatesOf(ts, names), CountKey) + (if EffectiveName(t) in names then 1 else 0)
  {
    if names != [] {
      NamesSnoc(ts, t);
      assert StableSort.Distinct(names[1..]) by {
        forall i, j | 0 <= i < j < |names[1..]|
          ensures names[1..][i] != names[1..][j]
        {
          assert names[1..][i] == names[i + 1] && names[1..][j] == names[j + 1];
        }
      }
      SumAggregatesSnoc(ts, t, names[1..]);
      assert names == [names[0]] + names[1..];
      if EffectiveName(t) == names[0] {
        assert EffectiveName(t) !in names[1..];
      }
    }
  }

  lemma {:induction false} AggregatesOfAppend(ts: seq<TransportRecord>, names: seq<string>, n: string)
    ensures AggregatesOf(ts, names + [n]) == AggregatesOf(ts, names) + [Aggregate(ts, n)]
  {
  }

  /** The counts add up to the number of records. */
  lemma {:induction false} SumAggregates(ts: seq<TransportRecord>)
    ensures StableSort.SumOf(AggregatesOf(ts, Names(ts)), CountKey) == |ts|
  {
    if ts != [] {
      var init := ts[..|ts| - 1];
      var t := ts[|ts| - 1];
      assert ts == init + [t];
      SumAggregates(init);
      NamesSnoc(init, t);
      NamesDistinct(init);
      SumAggregatesSnoc(init, t, Names(init));
      var n := EffectiveName(t);
      if n !in Names(init) {
        AggregatesOfAppend(ts, Names(init), n);
        StableSort.SumAppend(AggregatesOf(ts, Names(init)), [Aggregate(ts, n)], CountKey);
        NamesMembership(init, n);
      }
    }
  }

  /** Earlier in Names means met earlier in the records. */
  lemma {:induction false} NamesFirstEncounter(ts: seq<TransportRecord>, a: string, b: string)
    requires StableSort.Before(Names(ts), a, b)
    ensures FirstSeenBefore(ts, a, b)
  {
    var init := ts[..|ts| - 1];
    var t := ts[|ts| - 1];
    assert ts == init + [t];
    NamesSnoc(init, t);
    var P := Names(init);
    var i, j :| 0 <= i < j < |Names(ts)| && Names(ts)[i] == a && Names(ts)[j] == b;
    if j < |P| {
      assert P[i] == a && P[j] == b;
      NamesFirstEncounter(init, a, b);
      FirstSeenSnoc(init, t, a, b);
    } else {
      assert b !in P;
      assert a in P by { assert P[i] == a; }
      FirstSeenNew(init, t, a, b);
    }
  }

  lemma FirstSeenSnoc(ts: seq<TransportRecord>, t: TransportRecord, a: string, b: string)
    requires FirstSeenBefore(ts, a, b)
    ensures FirstSeenBefore(ts + [t], a, b)
  {
    var s := ts + [t];
    var p :| 0 <= p < |ts| && EffectiveName(ts[p]) == a &&
      forall q :: 0 <= q <= p ==> EffectiveName(ts[q]) != b;
    assert forall q :: 0 <= q <= p ==> s[q] == ts[q];
    assert EffectiveName(s[p]) == a;
  }

  lemma FirstSeenNew(ts: seq<TransportRecord>, t: TransportRecord, a: string, b: string)
    requires a in Names(ts) && b !in Names(ts)
    ensures FirstSeenBefore(ts + [t], a, b)
  {
    var s := ts + [t];
    NamesMembership(ts, a);
    NamesMembership(ts, b);
    var p :| 0 <= p < |ts| && EffectiveName(ts[p]) == a;
    assert forall q :: 0 <= q <= p ==> s[q] == ts[q];
    assert EffectiveName(s[p]) == a;
  }

  // ---- what groupTransportsByCompany promises ----

  /** The counts sum to the number of transports; the list is empty exactly
      when there are no transports. */
  lemma GroupedCountsSum(ts: seq<TransportRecord>)
    ensures StableSort.SumOf(Grouped(ts), CountKey) == |ts|
    ensures Grouped(ts) == [] <==> ts == []
  {
    SumAggregates(ts);
    StableSort.SortDescSum(AggregatesOf(ts, Names(ts)), CountKey);
    StableSort.SortDescPermutes(AggregatesOf(ts, Names(ts)), CountKey);
  }

  /** Some record is filed under n. */
  ghost predicate Filed(ts: seq<TransportRecord>, n: string) {
    exists p :: 0 <= p < |ts| && EffectiveName(ts[p]) == n
  }

  /** Some entry of the list is named n. */
  ghost predicate Listed(cs: seq<Company>, n: string) {
    exists i :: 0 <= i < |cs| && cs[i].name == n
  }

  /** Each entry is the aggregate of its own name, for a name that was met. */
  lemma GroupedIsAggregates(ts: seq<TransportRecord>)
    ensures forall i :: 0 <= i < |Grouped(ts)| ==>
      Grouped(ts)[i] == Aggregate(ts, Grouped(ts)[i].name) && Grouped(ts)[i].name in Names(ts)
    ensures multiset(Grouped(ts)) == multiset(AggregatesOf(ts, Names(ts)))
  {
    var aggs := AggregatesOf(ts, Names(ts));
    var out := Grouped(ts);
    StableSort.SortDescPermutes(aggs, CountKey);
    forall i | 0 <= i < |out|
      ensures out[i] == Aggregate(ts, out[i].name) && out[i].name in Names(ts)
    {
      assert out[i] in multiset(aggs);
      var k :| 0 <= k < |aggs| && aggs[k] == out[i];
    }
  }

  /** Each company appears once: no two entries share a name. */
  lemma GroupedNamesUnique(ts: seq<TransportRecord>)
    ensures forall i, j :: 0 <= i < j < |Grouped(ts)| ==> Grouped(ts)[i].name != Grouped(ts)[j].name
  {
    var names := Names(ts);
    var aggs := AggregatesOf(ts, names);
    var out := Grouped(ts);
    GroupedIsAggregates(ts);
    NamesDistinct(ts);
    assert StableSort.Distinct(aggs) by {
      forall i, j | 0 <= i < j < |aggs|
        ensures aggs[i] != aggs[j]
      {
        assert aggs[i].name == names[i] && aggs[j].name == names[j];
      }
    }
    StableSort.PermutationKeepsDistinct(aggs, out);
  }

  /** The entries are named by exactly the effective names of the records;
      in particular a record without a company name is counted under
      'Necunoscut'. */
  lemma GroupedCoversNames(ts: seq<TransportRecord>)
    ensures forall n :: Listed(Grouped(ts), n) <==> Filed(ts, n)
  {
    var names := Names(ts);
    var aggs := AggregatesOf(ts, names);
    var out := Grouped(ts);
    GroupedIsAggregates(ts);
    forall n | Filed(ts, n)
      ensures Listed(out, n)
    {
      NamesMembership(ts, n);
      var k :| 0 <= k < |names| && names[k] == n;
      assert aggs[k] in multiset(out);
      var i :| 0 <= i < |out| && out[i] == aggs[k];
    }
    forall n | Listed(out, n)
      ensures Filed(ts, n)
    {
      var i :| 0 <= i < |out| && out[i].name == n;
      NamesMembership(ts, n);
    }
  }

  /** Each entry carries the number of records of its company (at least
      one) and each flag says whether some record of that company has the
      role: emitent for isEmitent, destinatar or receptor for isDestinatar. */
  lemma GroupedEntryContents(ts: seq<TransportRecord>, i: nat)
    requires i < |Grouped(ts)|
    ensures var c := Grouped(ts)[i];
      && c.count == CountOf(ts, c.name) >= 1
      && (c.isEmitent <==> exists p :: 0 <= p < |ts| && EffectiveName(ts[p]) == c.name && IsEmitentRole(ts[p]))
      && (c.isDestinatar <==> exists p :: 0 <= p < |ts| && EffectiveName(ts[p]) == c.name && IsDestinatarRole(ts[p]))
  {
    GroupedIsAggregates(ts);
    NamesMembership(ts, Grouped(ts)[i].name);
  }

  /** The list is non-increasing in count. */
  lemma GroupedSorted(ts: seq<TransportRecord>)
    ensures forall i, j :: 0 <= i < j < |Grouped(ts)| ==> Grouped(ts)[i].count >= Grouped(ts)[j].count
  {
    StableSort.SortDescPermutes(AggregatesOf(ts, Names(ts)), CountKey);
    assert StableSort.SortedDesc(Grouped(ts), CountKey);
  }

  /** Companies with equal counts keep the order in which their names were
      first met (the sort is stable). */
  lemma GroupedTiesInEncounterOrder(ts: seq<TransportRecord>, i: nat, j: nat)
    requires i < j < |Grouped(ts)|
    requires Grouped(ts)[i].count == Grouped(ts)[j].count
    ensures FirstSeenBefore(ts, Grouped(ts)[i].name, Grouped(ts)[j].name)
  {
    var names := Names(ts);
    var aggs := AggregatesOf(ts, names);
    var x, y := Grouped(ts)[i], Grouped(ts)[j];
    assert StableSort.Before(Grouped(ts), x, y);
    StableSort.SortDescKeepsTieOrder(aggs, x, y, CountKey);
    var p, q :| 0 <= p < q < |aggs| && aggs[p] == x && aggs[q] == y;
    assert names[p] == x.name && names[q] == y.name;
    NamesFirstEncounter(ts, x.name, y.name);
  }

  /** Two Alpha records (one emitent, one destinatar) and one Beta emitent. */
  function ExampleTransports(): seq<TransportRecord> {
    [TransportRecord(None, Some("Alpha"), Some("emitent"), None),
     TransportRecord(None, Some("Alpha"), Some("destinatar"), None),
     TransportRecord(None, Some("Beta"), Some("emitent"), None)]
  }

  lemma ExampleRecords()
    ensures var ts := ExampleTransports();
      && EffectiveName(ts[0]) == "Alpha" && EffectiveName(ts[1]) == "Alpha" && EffectiveName(ts[2]) == "Beta"
      && IsEmitentRole(ts[0]) && IsDestinatarRole(ts[1]) && IsEmitentRole(ts[2]) && !IsDestinatarRole(ts[2])
      && "Alpha" != "Beta"
  {
    assert AsciiLower("emitent") == "emitent";
    assert AsciiLower("destinatar") == "destinatar";
    assert "Alpha"[0] != "Beta"[0];
    assert "emitent"[0] == 'e';
  }

  lemma ExampleNamesAndCounts()
    ensures var ts := ExampleTransports();
      && Names(ts) == ["Alpha", "Beta"]
      && CountOf(ts, "Alpha") == 2 && CountOf(ts, "Beta") == 1
  {
    var ts := ExampleTransports();
    ExampleRecords();
    assert ts[..2][..1] == ts[..1] && ts[..1][..0] == [];
    assert Names(ts[..1]) == ["Alpha"] && CountOf(ts[..1], "Alpha") == 1 && CountOf(ts[..1], "Beta") == 0;
    assert Names(ts[..2]) == ["Alpha"] && CountOf(ts[..2], "Alpha") == 2 && CountOf(ts[..2], "Beta") == 0;
  }

  lemma ExampleFlags()
    ensures var ts := ExampleTransports();
      SomeEmitent(ts, "Alpha") && SomeDestinatar(ts, "Alpha") && SomeEmitent(ts, "Beta") && !SomeDestinatar(ts, "Beta")
  {
    ExampleRecords();
    var ts := ExampleTransports();
    assert EffectiveName(ts[0]) == "Alpha" && IsEmitentRole(ts[0]);
    assert EffectiveName(ts[1]) == "Alpha" && IsDestinatarRole(ts[1]);
    assert EffectiveName(ts[2]) == "Beta" && IsEmitentRole(ts[2]);
    forall p | 0 <= p < |ts|
      ensures !(EffectiveName(ts[p]) == "Beta" && IsDestinatarRole(ts[p]))
    {
      if p < 2 {
        assert EffectiveName(ts[p]) == "Alpha";
      } else {
        assert p == 2 && !IsDestinatarRole(ts[2]);
      }
    }
  }

  /** The example groups into Alpha with both roles ahead of Beta. */
  lemma GroupedExample()
    ensures Grouped(ExampleTransports()) == [Company("Alpha", 2, true, true), Company("Beta", 1, true, false)]
  {
    var ts := ExampleTransports();
    ExampleNamesAndCounts();
    ExampleFlags();
    var a, b := Company("Alpha", 2, true, true), Company("Beta", 1, true, false);
    assert AggregatesOf(ts, Names(ts)) == [a, b] by {
      assert Aggregate(ts, "Alpha") == a && Aggregate(ts, "Beta") == b;
    }
    assert [a, b][..1] == [a] && [a][..0] == [];
    assert StableSort.SortDesc([a], CountKey) == [a];
    assert StableSort.Insert([a][1..], b, CountKey) == [b];
  }

  // ---- the card view-model of renderCompanies ----

  const MixedBorder := "#a855f7"
  const EmitentBorder := "#10b981"
  const DestinatarBorder := "#3b82f6"
  const DefaultBorder := "#64748b"

  /** The role flags a border colour stands for; None for a colour no card uses. */
  function FlagsOfBorder(color: string): Option<(bool, bool)> {
    if color == MixedBorder then Some((true, true))
    else if color == EmitentBorder then Some((true, false))
    else if color == DestinatarBorder then Some((false, true))
    else if color == DefaultBorder then Some((false, false))
    else None
  }

  /** The border colour of a card: purple for both roles, green for emitent
      only, blue for destinatar only, slate for neither. */
  function BorderColor(isEmitent: bool, isDestinatar: bool): (color: string)
    ensures FlagsOfBorder(color) == Some((isEmitent, isDestinatar))
  {
    if isEmitent && isDestinatar then MixedBorder
    else if isEmitent then EmitentBorder
    else if isDestinatar then DestinatarBorder
    else DefaultBorder
  }

  datatype CompanyCard = CompanyCard(
    name: string, count: nat, border: string, emitentBadge: bool, destinatarBadge: bool)

  datatype CompanyList = NoActiveCompanies | CompanyCards(cards: seq<CompanyCard>)

  /** The `feed-count` text and the content of `transports-list`. */
  datatype CompanyPanel = CompanyPanel(countLabel: string, list: CompanyList)

  function CardOf(c: Company): CompanyCard {
    CompanyCard(c.name, c.count, BorderColor(c.isEmitent, c.isDestinatar), c.isEmitent, c.isDestinatar)
  }

  /** renderCompanies: "<n> companii", then the empty-area message or one
      card per company, in list order, with a badge for each role it holds
      and a border that tells the two roles apart. */
  function RenderCompanies(companies: seq<Company>): (p: CompanyPanel)
    ensures p.countLabel == NatToString(|companies|) + " companii"
    ensures p.list.NoActiveCompanies? <==> companies == []
    ensures p.list.CompanyCards? ==>
      |p.list.cards| == |companies| &&
      forall i :: 0 <= i < |companies| ==>
        (var card := p.list.cards[i];
         && card.name == companies[i].name && card.count == companies[i].count
         && card.emitentBadge == companies[i].isEmitent
         && card.destinatarBadge == companies[i].isDestinatar
         && FlagsOfBorder(card.border) == Some((companies[i].isEmitent, companies[i].isDestinatar)))
  {
    var countText := NatToString(|companies|) + " companii";
    if |companies| == 0 then CompanyPanel(countText, NoActiveCompanies)
    else CompanyPanel(countText, CompanyCards(seq(|companies|, i requires 0 <= i < |companies| => CardOf(companies[i]))))
  }
}
