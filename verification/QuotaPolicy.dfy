/** The limits a stored policy stands for, and whose usage they count (cmd/api/access.go). */
module QuotaPolicy {
  import opened Wrappers
  import opened QuotaWindows
  import Text

  /** What a run of decimal digits means. */
  function Read(s: string): int {
    if s == [] then 0 else 10 * Read(s[..|s| - 1]) + (s[|s| - 1] as int - '0' as int)
  }

  /** A number is written in decimal digits that mean it, without leading zeros. */
  lemma {:induction false} DecimalReads(n: nat)
    ensures forall k | 0 <= k < |Decimal(n)| :: '0' <= Decimal(n)[k] <= '9'
    ensures Read(Decimal(n)) == n
    ensures n > 0 ==> Decimal(n)[0] != '0'
  {
    if n < 10 {
      assert Decimal(n)[..0] == [];
    } else {
      DecimalReads(n / 10);
      assert Decimal(n)[..|Decimal(n)| - 1] == Decimal(n / 10);
    }
  }

  predicate AllSpace(s: string) { forall k | 0 <= k < |s| :: Text.IsSpace(s[k]) }

  /** Blanks around something visible. */
  predicate Around(lead: string, core: string, trail: string) {
    && AllSpace(lead) && AllSpace(trail)
    && core != [] && !Text.IsSpace(core[0]) && !Text.IsSpace(core[|core| - 1])
  }

  lemma {:induction false} SpaceTrimsAway(pad: string)
    requires AllSpace(pad)
    ensures Text.TrimLeft(pad) == [] && Text.TrimRight(pad) == []
  {
    if pad != [] {
      SpaceTrimsAway(pad[1..]);
      var n := |pad| - 1;
      SpaceTrimsAway(pad[..n]);
    }
  }

  /** A policy that limits nothing has no limits; any other has its own, called primary, and after it its stored limits
      in their order, each as stored, under its own id without the blanks around it, or by its number without one. */
  lemma SpecsMean(p: Policy)
    ensures p.unlimited || p.tokenLimit.None? ==> Specs(p) == []
    ensures !p.unlimited && p.tokenLimit.Some? ==>
              var stored := if p.stored.Some? then p.stored.value else [];
              && |Specs(p)| == 1 + |stored|
              && Specs(p)[0] == Spec("primary", true, p.tokenLimit.value, p.kind, p.count, p.seconds)
              && forall i | 0 <= i < |stored| ::
                   var l := stored[i];
                   && Specs(p)[i + 1] == Spec(Specs(p)[i + 1].id, false, l.limit, l.kind, l.count, l.seconds)
                   && (AllSpace(l.id) ==> Specs(p)[i + 1].id == "parallel-" + Decimal(i + 1))
                   && forall lead, core, trail ::
                        l.id == lead + core + trail && Around(lead, core, trail) ==> Specs(p)[i + 1].id == core
  {
    if !p.unlimited && p.tokenLimit.Some? {
      var stored := if p.stored.Some? then p.stored.value else [];
      forall i | 0 <= i < |stored|
        ensures AllSpace(stored[i].id) ==> Specs(p)[i + 1].id == "parallel-" + Decimal(i + 1)
        ensures forall lead, core, trail ::
                  stored[i].id == lead + core + trail && Around(lead, core, trail) ==> Specs(p)[i + 1].id == core
      {
        if AllSpace(stored[i].id) {
          SpaceTrimsAway(stored[i].id);
        }
        forall lead, core, trail | stored[i].id == lead + core + trail && Around(lead, core, trail)
          ensures Specs(p)[i + 1].id == core
        {
          Text.TrimAround(lead, core, trail);
          SpaceTrimsAway(lead);
          SpaceTrimsAway(trail);
          assert [] + core + [] == core;
        }
      }
    }
  }

  /** Two requests share a counter exactly if they come by the same API key that is counted on its own, or neither comes
      by one and they come from the same user. */
  lemma CountersMeetIff(subject: string, key: string, own: bool, subject': string, key': string, own': bool)
    ensures CounterKey(subject, key, own) == CounterKey(subject', key', own') <==>
            if own && key != "" then own' && key' == key else !(own' && key' != "") && subject' == subject
  {
    var a, b := CounterKey(subject, key, own), CounterKey(subject', key', own');
    assert own && key != "" ==> a[0] == 'a' && a[8..] == key;
    assert !(own && key != "") ==> a[0] == 'u' && a[5..] == subject;
    assert own' && key' != "" ==> b[0] == 'a' && b[8..] == key';
    assert !(own' && key' != "") ==> b[0] == 'u' && b[5..] == subject';
  }
}
