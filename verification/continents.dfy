/** The continent back-fill of migrate_continents.py: a continent chosen from the digits of the
    anonymised IP, written into every event that lacks one. The database cursor is modelled as an
    array of the stored events, updated in place. */
module Continents {
  import opened Wrappers
  import opened Strings
  import opened Events

  /** `CONTINENTS_FALLBACK`. */
  const Fallback: seq<string> := ["North America", "Europe", "Asia", "South America", "Africa", "Oceania"]

  /** `sum(int(c) for c in ip if c.isdigit())`. */
  function DigitSum(s: string): (d: nat)
    ensures d <= 9 * |s|
  {
    if s == [] then 0 else (if IsDigit(s[0]) then DigitValue(s[0]) else 0) + DigitSum(s[1..])
  }

  lemma {:induction false} DigitSumAppend(a: string, b: string)
    ensures DigitSum(a + b) == DigitSum(a) + DigitSum(b)
  {
    if a == [] {
      assert a + b == b;
    } else {
      assert (a + b)[0] == a[0] && (a + b)[1..] == a[1..] + b;
      DigitSumAppend(a[1..], b);
    }
  }

  lemma {:induction false} DigitSumNoDigits(s: string)
    requires forall i :: 0 <= i < |s| ==> !IsDigit(s[i])
    ensures DigitSum(s) == 0
  {
    if s != [] {
      DigitSumNoDigits(s[1..]);
    }
  }

  /** The continent for an event's `ip_hash`: `CONTINENTS_FALLBACK[digit sum % 6]`, or
      `North America` when the hash is missing or empty. */
  function ContinentFor(ipHash: Option<string>): (c: string)
    ensures c in Fallback
    ensures ipHash.None? || ipHash == Some("") ==> c == "North America"
  {
    if ipHash.Some? && ipHash.value != "" then Fallback[DigitSum(ipHash.value) % |Fallback|] else "North America"
  }

  /** A hash without digits gives the first entry, `North America`. */
  lemma NoDigitsNorthAmerica(s: string)
    requires forall i :: 0 <= i < |s| ==> !IsDigit(s[i])
    ensures ContinentFor(Some(s)) == "North America"
  {
    DigitSumNoDigits(s);
  }

  /** The continent depends on the hash only through its digit sum modulo 6: two hashes get the
      same continent exactly when their digit sums agree modulo 6 (a missing hash counts as sum 0). */
  lemma SameContinentIffSameResidue(a: string, b: string)
    ensures ContinentFor(Some(a)) == ContinentFor(Some(b)) <==> DigitSum(a) % 6 == DigitSum(b) % 6
  {
    assert ContinentFor(Some(a)) == Fallback[DigitSum(a) % 6];
    assert ContinentFor(Some(b)) == Fallback[DigitSum(b) % 6];
    FallbackDistinct(DigitSum(a) % 6, DigitSum(b) % 6);
  }

  /** The six fallback names are pairwise different: no two share both first letter and length. */
  lemma FallbackDistinct(i: nat, j: nat)
    requires i < |Fallback| && j < |Fallback|
    ensures Fallback[i] == Fallback[j] ==> i == j
  {
    var initials := "NEASAO";
    var lengths := [13, 6, 4, 13, 6, 7];
    assert forall k :: 0 <= k < |Fallback| ==> |Fallback[k]| == lengths[k] && Fallback[k][0] == initials[k];
    assert forall k, l :: 0 <= k < l < |initials| ==> initials[k] != initials[l] || lengths[k] != lengths[l];
  }

  /** Inserting a non-digit character anywhere in a hash does not change its continent. */
  lemma NonDigitIgnored(before: string, c: char, after: string)
    requires !IsDigit(c)
    ensures ContinentFor(Some(before + [c] + after)) == ContinentFor(Some(before + after))
  {
    DigitSumAppend(before + [c], after);
    DigitSumAppend(before, [c]);
    DigitSumAppend(before, after);
    assert DigitSum([c]) == 0 by {
      assert [c][1..] == [];
    }
    SameContinentIffSameResidue(before + [c] + after, before + after);
  }

  /** The migration's selector: the `continent` field is missing, `None` or `""`. */
  predicate LacksContinent(e: Event) {
    e.continent.None? || e.continent == Some("")
  }

  /** An event as the migration leaves it. */
  function Backfilled(e: Event): (b: Event)
    ensures !LacksContinent(b)
    ensures !LacksContinent(e) ==> b == e
    ensures LacksContinent(e) ==> b.continent == Some(ContinentFor(e.ipHash)) && b == e.(continent := b.continent)
  {
    if LacksContinent(e) then e.(continent := Some(ContinentFor(e.ipHash))) else e
  }

  /** `count_documents` with the selector. */
  function CountLacking(es: seq<Event>): nat {
    if es == [] then 0 else CountLacking(es[..|es| - 1]) + (if LacksContinent(es[|es| - 1]) then 1 else 0)
  }

  lemma CountLackingStep(es: seq<Event>, i: nat)
    requires i < |es|
    ensures CountLacking(es[..i + 1]) == CountLacking(es[..i]) + if LacksContinent(es[i]) then 1 else 0
  {
    assert es[..i + 1][..i] == es[..i];
  }

  /** The count is zero exactly when no event lacks a continent. */
  lemma {:induction false} CountLackingZero(es: seq<Event>)
    ensures CountLacking(es) == 0 <==> forall i :: 0 <= i < |es| ==> !LacksContinent(es[i])
  {
    if es != [] {
      var init := es[..|es| - 1];
      CountLackingZero(init);
      assert forall i :: 0 <= i < |init| ==> init[i] == es[i];
    }
  }

  /** `migrate_continents`: returns `updated_count`. When nothing lacks a continent it returns at
      once; otherwise every selected event gets its continent and is counted. */
  method MigrateContinents(events: array<Event>) returns (updatedCount: nat)
    modifies events
    ensures updatedCount == CountLacking(old(events[..]))
    ensures forall i :: 0 <= i < events.Length ==> events[i] == Backfilled(old(events[i]))
    ensures CountLacking(events[..]) == 0
  {
    ghost var original := events[..];
    var eventsWithoutContinent := CountLacking(events[..]);
    if eventsWithoutContinent == 0 {
      CountLackingZero(events[..]);
      return 0;
    }
    updatedCount := 0;
    for i := 0 to events.Length
      invariant updatedCount == CountLacking(original[..i])
      invariant forall k :: 0 <= k < i ==> events[k] == Backfilled(original[k])
      invariant forall k :: i <= k < events.Length ==> events[k] == original[k]
    {
      CountLackingStep(original, i);
      ghost var before := events[..];
      var event := events[i];
      if event.continent.None? || event.continent == Some("") {
        var continent := ContinentFor(event.ipHash);
        events[i] := event.(continent := Some(continent));
        updatedCount := updatedCount + 1;
      }
      assert events[..] == before[i := Backfilled(original[i])];
    }
    assert original[..events.Length] == original;
    assert forall k :: 0 <= k < events.Length ==> !LacksContinent(events[..][k]);
    CountLackingZero(events[..]);
  }
}
