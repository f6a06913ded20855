/** Which stored Cloudflare credential can manage a domain: the one with the longest matching zone. */
module ZoneMatch {
  import opened JsText

  datatype Credential = Credential(id: string, provider: string, zones: seq<string>)

  datatype Match = Match(cred: Credential, zone: string)

  /** `s.replace(/\.$/, "")`. */
  function DropDot(s: string): string {
    if s != "" && s[|s| - 1] == '.' then s[..|s| - 1] else s
  }

  /** `lower` is `toLowerCase`. */
  function Norm(lower: string -> string, s: string): string {
    DropDot(lower(Trim(s)))
  }

  predicate EndsWith(s: string, suffix: string) {
    |suffix| <= |s| && s[|s| - |suffix|..] == suffix
  }

  predicate Covers(zone: string, d: string) {
    zone != "" && (d == zone || EndsWith(d, "." + zone))
  }

  /** Zone `j` of credential `i` is a Cloudflare zone for the domain. */
  predicate Candidate(lower: string -> string, creds: seq<Credential>, d: string, i: int, j: int) {
    && 0 <= i < |creds| && creds[i].provider == "cloudflare"
    && 0 <= j < |creds[i].zones| && Covers(Norm(lower, creds[i].zones[j]), d)
  }

  /** The first of the longest among the candidates before position (m, n). */
  ghost predicate BestBefore(lower: string -> string, creds: seq<Credential>, d: string, best: Option<Match>, m: int,
      n: int)
  {
    match best
    case None => forall i, j :: Before(i, j, m, n) ==> !Candidate(lower, creds, d, i, j)
    case Some(found) =>
      exists i, j :: Before(i, j, m, n) && IsFirstLongest(lower, creds, d, found, i, j, m, n)
  }

  predicate Before(i: int, j: int, m: int, n: int) {
    i < m || (i == m && j < n)
  }

  ghost predicate IsFirstLongest(lower: string -> string, creds: seq<Credential>, d: string, found: Match, i: int,
      j: int, m: int, n: int)
  {
    && Candidate(lower, creds, d, i, j)
    && found == Match(creds[i], Norm(lower, creds[i].zones[j]))
    && (forall a, b :: Before(a, b, m, n) && Candidate(lower, creds, d, a, b) ==>
          && |Norm(lower, creds[a].zones[b])| <= |found.zone|
          && (Before(a, b, i, j) ==> |Norm(lower, creds[a].zones[b])| < |found.zone|))
  }

  method MatchingCredential(lower: string -> string, creds: seq<Credential>, domain: string)
      returns (best: Option<Match>)
    ensures Norm(lower, domain) == "" || domain == "" ==> best == None
    ensures Norm(lower, domain) != "" && domain != "" ==>
      BestBefore(lower, creds, Norm(lower, domain), best, |creds|, 0)
  {
    hide Norm, BestBefore, EndsWith;
    best := None;
    if domain == "" {
      return;
    }
    var d := Norm(lower, domain);
    if d == "" {
      return;
    }
    NothingBefore(lower, creds, d);
    var i := 0;
    while i < |creds|
      invariant 0 <= i <= |creds| && BestBefore(lower, creds, d, best, i, 0)
    {
      var c := creds[i];
      if c.provider == "cloudflare" {
        var j := 0;
        while j < |c.zones|
          invariant 0 <= j <= |c.zones| && BestBefore(lower, creds, d, best, i, j)
        {
          var zn := Norm(lower, c.zones[j]);
          ghost var previous := best;
          if zn != "" && (d == zn || EndsWith(d, "." + zn)) && (best.None? || |zn| > |best.value.zone|) {
            best := Some(Match(c, zn));
          }
          BestStep(lower, creds, d, previous, i, j);
          j := j + 1;
        }
      }
      NextCredential(lower, creds, d, best, i);
      i := i + 1;
    }
  }

  lemma NothingBefore(lower: string -> string, creds: seq<Credential>, d: string)
    ensures BestBefore(lower, creds, d, None, 0, 0)
  {
  }

  lemma BestStep(lower: string -> string, creds: seq<Credential>, d: string, best: Option<Match>, m: int, n: int)
    requires 0 <= m < |creds| && creds[m].provider == "cloudflare" && 0 <= n < |creds[m].zones|
    requires BestBefore(lower, creds, d, best, m, n)
    ensures var zn := Norm(lower, creds[m].zones[n]);
      BestBefore(lower, creds, d,
        if Covers(zn, d) && (best.None? || |zn| > |best.value.zone|) then Some(Match(creds[m], zn)) else best, m, n + 1)
  {
    hide Norm, Covers;
    var zn := Norm(lower, creds[m].zones[n]);
    assert forall a, b :: Before(a, b, m, n + 1) ==> Before(a, b, m, n) || (a == m && b == n);
    assert Before(m, n, m, n + 1);
    if Covers(zn, d) && (best.None? || |zn| > |best.value.zone|) {
      var found := Match(creds[m], zn);
      assert IsFirstLongest(lower, creds, d, found, m, n, m, n + 1);
    } else if best.Some? {
      var i, j :| Before(i, j, m, n) && IsFirstLongest(lower, creds, d, best.value, i, j, m, n);
      assert Before(i, j, m, n + 1) && IsFirstLongest(lower, creds, d, best.value, i, j, m, n + 1);
    }
  }

  lemma NextCredential(lower: string -> string, creds: seq<Credential>, d: string, best: Option<Match>, m: int)
    requires 0 <= m < |creds|
    requires if creds[m].provider == "cloudflare" then BestBefore(lower, creds, d, best, m, |creds[m].zones|)
             else BestBefore(lower, creds, d, best, m, 0)
    ensures BestBefore(lower, creds, d, best, m + 1, 0)
  {
    hide Norm, Covers;
    var n := if creds[m].provider == "cloudflare" then |creds[m].zones| else 0;
    assert forall a, b :: Before(a, b, m + 1, 0) && Candidate(lower, creds, d, a, b) ==> Before(a, b, m, n);
    if best.Some? {
      var i, j :| Before(i, j, m, n) && IsFirstLongest(lower, creds, d, best.value, i, j, m, n);
      assert Before(i, j, m + 1, 0) && IsFirstLongest(lower, creds, d, best.value, i, j, m + 1, 0);
    }
  }

  /** Two zones of one length that cover a domain are the same zone. */
  lemma SameLengthSameZone(a: string, b: string, d: string)
    requires Covers(a, d) && Covers(b, d) && |a| == |b|
    ensures a == b
  {
    SuffixOf(a, d);
    SuffixOf(b, d);
  }

  lemma SuffixOf(zone: string, d: string)
    requires Covers(zone, d)
    ensures |zone| <= |d| && zone == d[|d| - |zone|..]
  {
    if d != zone {
      assert ("." + zone)[1..] == zone;
      assert d[|d| - |zone|..] == d[|d| - |zone| - 1..][1..];
    }
  }

  /**
   * The search's result, whatever the order it was found in: none, or the first of the longest covering
   * zones, as one.
   */
  lemma ResultIsDetermined(lower: string -> string, creds: seq<Credential>, d: string, a: Option<Match>,
      b: Option<Match>)
    requires BestBefore(lower, creds, d, a, |creds|, 0) && BestBefore(lower, creds, d, b, |creds|, 0)
    ensures a == b
    ensures a == None <==> forall i, j :: !Candidate(lower, creds, d, i, j)
    ensures a.Some? ==> forall i, j :: Candidate(lower, creds, d, i, j) ==>
      var zone := Norm(lower, creds[i].zones[j]);
      |zone| < |a.value.zone| || zone == a.value.zone
  {
    hide Norm, Covers;
    assert forall i, j :: Candidate(lower, creds, d, i, j) ==> Before(i, j, |creds|, 0);
    if a.Some? {
      var i, j :| Before(i, j, |creds|, 0) && IsFirstLongest(lower, creds, d, a.value, i, j, |creds|, 0);
      assert Candidate(lower, creds, d, i, j);
      if b.Some? {
        var k, l :| Before(k, l, |creds|, 0) && IsFirstLongest(lower, creds, d, b.value, k, l, |creds|, 0);
        assert Candidate(lower, creds, d, k, l);
        assert i == k && j == l;
      }
      forall p, q | Candidate(lower, creds, d, p, q)
        ensures |Norm(lower, creds[p].zones[q])| < |a.value.zone| || Norm(lower, creds[p].zones[q]) == a.value.zone
      {
        if |Norm(lower, creds[p].zones[q])| == |a.value.zone| {
          SameLengthSameZone(Norm(lower, creds[p].zones[q]), a.value.zone, d);
        }
      }
    }
  }

  // ---- spelling ---------------------------------------------------------------------------

  /** Two spellings of a name are the same zone: spaces around them, one final dot, and whatever `lower` folds. */
  lemma SpellingIsIgnored(lower: string -> string, a: string, b: string, front: string, back: string)
    requires AllSpace(front) && AllSpace(back) && lower(Trim(a)) == lower(Trim(b))
    ensures Norm(lower, front + a + back) == Norm(lower, b)
  {
    hide Trim, DropDot;
    TrimAround(front, a, back);
  }

  lemma FinalDotIsIgnored(lower: string -> string, a: string, b: string)
    requires lower(Trim(a)) == lower(Trim(b)) + "." && !EndsWith(lower(Trim(b)), ".")
    ensures Norm(lower, a) == Norm(lower, b) == lower(Trim(b))
  {
    hide Trim;
    var s := lower(Trim(b));
    assert (s + ".")[..|s|] == s;
    if s != "" {
      assert s[|s| - 1..] == [s[|s| - 1]];
    }
  }

  /** A zone covers itself and its subdomains, and not a name that only ends in its letters. */
  lemma CoversSubdomainsOnly(zone: string, sub: string)
    requires zone != "" && sub != ""
    ensures Covers(zone, zone) && Covers(zone, sub + "." + zone)
    ensures Covers(zone, sub + zone) <==> sub[|sub| - 1] == '.'
  {
    var d, e := sub + "." + zone, sub + zone;
    assert d[|d| - |zone| - 1..] == "." + zone;
    assert e[|e| - |zone| - 1..] == [sub[|sub| - 1]] + zone;
    assert ([sub[|sub| - 1]] + zone)[0] == sub[|sub| - 1] && ("." + zone)[0] == '.';
  }

  /** A longer zone wins over a shorter one, wherever it is listed. */
  lemma LongerZoneWins(lower: string -> string, short: Credential, long: Credential, zone: string, sub: string)
    requires short.provider == "cloudflare" && long.provider == "cloudflare" && |short.zones| == |long.zones| == 1
    requires zone != "" && sub != ""
    requires Norm(lower, short.zones[0]) == zone && Norm(lower, long.zones[0]) == sub + "." + zone
    ensures BestBefore(lower, [short, long], sub + "." + zone, Some(Match(long, sub + "." + zone)), 2, 0)
    ensures BestBefore(lower, [long, short], sub + "." + zone, Some(Match(long, sub + "." + zone)), 2, 0)
  {
    hide Norm, Covers;
    CoversSubdomainsOnly(zone, sub);
    CoversItself(sub + "." + zone);
    assert Before(1, 0, 2, 0) && Before(0, 0, 2, 0);
    assert IsFirstLongest(lower, [short, long], sub + "." + zone, Match(long, sub + "." + zone), 1, 0, 2, 0);
    assert IsFirstLongest(lower, [long, short], sub + "." + zone, Match(long, sub + "." + zone), 0, 0, 2, 0);
  }

  lemma CoversItself(zone: string)
    requires zone != ""
    ensures Covers(zone, zone)
  {
  }

  /** Only Cloudflare's credentials count. */
  lemma OnlyCloudflareCounts(lower: string -> string, creds: seq<Credential>, d: string, best: Option<Match>)
    requires BestBefore(lower, creds, d, best, |creds|, 0)
    ensures best.Some? ==> best.value.cred in creds && best.value.cred.provider == "cloudflare"
    ensures (forall c :: c in creds ==> c.provider != "cloudflare") ==> best == None
  {
    hide Norm, Covers;
    if best.Some? {
      var i, j :| Before(i, j, |creds|, 0) && IsFirstLongest(lower, creds, d, best.value, i, j, |creds|, 0);
      assert Candidate(lower, creds, d, i, j) && creds[i] in creds;
    }
  }
}
