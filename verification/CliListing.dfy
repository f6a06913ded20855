/**
 * The CLI's paginated listing and the wrapper that refreshes an expired access token once and
 * runs the listing again from its first page. The network is an oracle: it decides what every
 * single request gets, so a token can expire before any page.
 */
module CliListing {
  import opened JsText
  import opened JsonTree

  const KNOWN_LIST_KEYS := ["teams", "projects", "deployments", "members", "items", "data", "results"]

  // ---- extractListPayload -----------------------------------------------------------------

  function Property(fields: seq<Field>, key: string): Option<Json> {
    if fields == [] then None
    else if fields[0].key == key then Some(fields[0].value)
    else Property(fields[1..], key)
  }

  function FirstKnown(fields: seq<Field>, keys: seq<string>): Option<seq<Json>> {
    if keys == [] then None
    else
      var value := Property(fields, keys[0]);
      if value.Some? && value.value.JsonArray? then Some(value.value.elements)
      else FirstKnown(fields, keys[1..])
  }

  function FirstArray(fields: seq<Field>): Option<seq<Json>> {
    if fields == [] then None
    else if fields[0].value.JsonArray? then Some(fields[0].value.elements)
    else FirstArray(fields[1..])
  }

  function ExtractListPayload(data: Json): Option<seq<Json>> {
    match data
    case JsonArray(elements) => Some(elements)
    case JsonObject(fields) =>
      var known := FirstKnown(fields, KNOWN_LIST_KEYS);
      if known.Some? then known else FirstArray(fields)
    case Scalar(_) => None
  }

  predicate DistinctKeys(fields: seq<Field>) {
    forall i, j :: 0 <= i < j < |fields| ==> fields[i].key != fields[j].key
  }

  /** Field `i` is the one the payload is taken from. */
  ghost predicate IsPayloadField(fields: seq<Field>, i: nat) {
    && i < |fields| && fields[i].value.JsonArray?
    && (if fields[i].key in KNOWN_LIST_KEYS then
          exists k :: 0 <= k < |KNOWN_LIST_KEYS| && KNOWN_LIST_KEYS[k] == fields[i].key
            && forall j :: 0 <= j < |fields| && fields[j].value.JsonArray? ==> fields[j].key !in KNOWN_LIST_KEYS[..k]
        else
          && (forall j :: 0 <= j < |fields| && fields[j].value.JsonArray? ==> fields[j].key !in KNOWN_LIST_KEYS)
          && (forall j :: 0 <= j < i ==> !fields[j].value.JsonArray?))
  }

  lemma {:induction false} PropertyExact(fields: seq<Field>, key: string)
    requires DistinctKeys(fields)
    ensures Property(fields, key).None? ==> forall i :: 0 <= i < |fields| ==> fields[i].key != key
    ensures Property(fields, key).Some? ==>
      exists i :: 0 <= i < |fields| && fields[i].key == key && fields[i].value == Property(fields, key).value
    ensures forall i :: 0 <= i < |fields| && fields[i].key == key ==> Property(fields, key) == Some(fields[i].value)
  {
    if fields != [] {
      PropertyExact(fields[1..], key);
      assert forall i :: 1 <= i < |fields| ==> fields[i] == fields[1..][i - 1];
      if fields[0].key != key && Property(fields, key).Some? {
        var i :| 0 <= i < |fields[1..]| && fields[1..][i].key == key
          && fields[1..][i].value == Property(fields, key).value;
        assert fields[i + 1].key == key;
      }
    }
  }

  lemma {:induction false} FirstKnownExact(fields: seq<Field>, keys: seq<string>)
    requires DistinctKeys(fields)
    ensures FirstKnown(fields, keys).None? <==>
      forall i :: 0 <= i < |fields| && fields[i].value.JsonArray? ==> fields[i].key !in keys
    ensures FirstKnown(fields, keys).Some? ==>
      exists i, k ::
        && 0 <= i < |fields| && 0 <= k < |keys|
        && fields[i].value.JsonArray? && FirstKnown(fields, keys) == Some(fields[i].value.elements)
        && keys[k] == fields[i].key
        && forall j :: 0 <= j < |fields| && fields[j].value.JsonArray? ==> fields[j].key !in keys[..k]
  {
    if keys != [] {
      PropertyExact(fields, keys[0]);
      FirstKnownExact(fields, keys[1..]);
      assert keys == [keys[0]] + keys[1..];
      var value := Property(fields, keys[0]);
      if value.Some? && value.value.JsonArray? {
        assert keys[..0] == [];
      } else if FirstKnown(fields, keys).Some? {
        var i, k :| 0 <= i < |fields| && 0 <= k < |keys[1..]|
          && fields[i].value.JsonArray? && FirstKnown(fields, keys) == Some(fields[i].value.elements)
          && keys[1..][k] == fields[i].key
          && forall j :: 0 <= j < |fields| && fields[j].value.JsonArray? ==> fields[j].key !in keys[1..][..k];
        assert keys[k + 1] == fields[i].key && keys[..k + 1] == [keys[0]] + keys[1..][..k];
      }
    }
  }

  lemma {:induction false} FirstArrayExact(fields: seq<Field>)
    ensures FirstArray(fields).None? <==> forall i :: 0 <= i < |fields| ==> !fields[i].value.JsonArray?
    ensures FirstArray(fields).Some? ==>
      exists i ::
        && 0 <= i < |fields| && fields[i].value.JsonArray?
        && FirstArray(fields) == Some(fields[i].value.elements)
        && forall j :: 0 <= j < i ==> !fields[j].value.JsonArray?
  {
    if fields != [] {
      FirstArrayExact(fields[1..]);
      assert forall i :: 1 <= i < |fields| ==> fields[i] == fields[1..][i - 1];
      if !fields[0].value.JsonArray? && FirstArray(fields).Some? {
        var i :| 0 <= i < |fields[1..]| && fields[1..][i].value.JsonArray?
          && FirstArray(fields) == Some(fields[1..][i].value.elements)
          && forall j :: 0 <= j < i ==> !fields[1..][j].value.JsonArray?;
        assert fields[i + 1].value.JsonArray?;
      }
    }
  }

  /** The payload is the first known key holding an array, else the first array; none exactly when no array is there. */
  lemma PayloadExact(fields: seq<Field>)
    requires DistinctKeys(fields)
    ensures ExtractListPayload(JsonObject(fields)).None? <==>
      forall i :: 0 <= i < |fields| ==> !fields[i].value.JsonArray?
    ensures ExtractListPayload(JsonObject(fields)).Some? ==> exists i: nat ::
      IsPayloadField(fields, i) && ExtractListPayload(JsonObject(fields)) == Some(fields[i].value.elements)
  {
    var keys := KNOWN_LIST_KEYS;
    FirstKnownExact(fields, keys);
    FirstArrayExact(fields);
    if FirstKnown(fields, keys).Some? {
      var i, k :| 0 <= i < |fields| && 0 <= k < |keys|
        && fields[i].value.JsonArray? && FirstKnown(fields, keys) == Some(fields[i].value.elements)
        && keys[k] == fields[i].key
        && forall j :: 0 <= j < |fields| && fields[j].value.JsonArray? ==> fields[j].key !in keys[..k];
      assert IsPayloadField(fields, i);
    } else if FirstArray(fields).Some? {
      var i :| 0 <= i < |fields| && fields[i].value.JsonArray?
        && FirstArray(fields) == Some(fields[i].value.elements)
        && forall j :: 0 <= j < i ==> !fields[j].value.JsonArray?;
      assert IsPayloadField(fields, i);
    }
  }

  lemma {:induction false} FirstKnownTakes(fields: seq<Field>, keys: seq<string>, i: nat, k: nat)
    requires DistinctKeys(fields) && i < |fields| && k < |keys|
    requires fields[i].value.JsonArray? && keys[k] == fields[i].key
    requires forall j :: 0 <= j < |fields| && fields[j].value.JsonArray? ==> fields[j].key !in keys[..k]
    ensures FirstKnown(fields, keys) == Some(fields[i].value.elements)
  {
    PropertyExact(fields, keys[0]);
    hide Property, DistinctKeys;
    if k > 0 {
      assert keys[..k] == [keys[0]] + keys[1..][..k - 1];
      FirstKnownTakes(fields, keys[1..], i, k - 1);
    }
  }

  /** And the field so described is the only one the payload can come from. */
  lemma PayloadFieldIsTaken(fields: seq<Field>, i: nat)
    requires DistinctKeys(fields) && IsPayloadField(fields, i)
    ensures ExtractListPayload(JsonObject(fields)) == Some(fields[i].value.elements)
  {
    FirstKnownExact(fields, KNOWN_LIST_KEYS);
    FirstArrayExact(fields);
    hide FirstKnown, FirstArray, KNOWN_LIST_KEYS, DistinctKeys;
    if fields[i].key in KNOWN_LIST_KEYS {
      var k :| 0 <= k < |KNOWN_LIST_KEYS| && KNOWN_LIST_KEYS[k] == fields[i].key
        && forall j :: 0 <= j < |fields| && fields[j].value.JsonArray? ==> fields[j].key !in KNOWN_LIST_KEYS[..k];
      FirstKnownTakes(fields, KNOWN_LIST_KEYS, i, k);
    }
  }

  /** An array is its own payload, and seven names go before any other, in this order. */
  lemma PlainPayloads(elements: seq<Json>, text: string)
    ensures ExtractListPayload(JsonArray(elements)) == Some(elements) && ExtractListPayload(Scalar(text)) == None
    ensures |KNOWN_LIST_KEYS| == 7 && KNOWN_LIST_KEYS[0] == "teams" && KNOWN_LIST_KEYS[1] == "projects"
    ensures KNOWN_LIST_KEYS[2] == "deployments" && KNOWN_LIST_KEYS[3] == "members" && KNOWN_LIST_KEYS[4] == "items"
    ensures KNOWN_LIST_KEYS[5] == "data" && KNOWN_LIST_KEYS[6] == "results"
  {
  }

  /** A known name goes before an array that comes first, and a known name without an array does not count. */
  lemma EnvelopeReads(first: Json, teams: Json, elements: seq<Json>)
    requires first.JsonArray? && !teams.JsonArray?
    ensures var fields := [Field("page", first), Field("teams", teams), Field("items", JsonArray(elements))];
      DistinctKeys(fields) && ExtractListPayload(JsonObject(fields)) == Some(elements)
  {
    hide ExtractListPayload;
    var fields := [Field("page", first), Field("teams", teams), Field("items", JsonArray(elements))];
    assert "items"[0] != "page"[0] && "items"[0] != "teams"[0] && "page"[0] != "teams"[0];
    PlainPayloads([], "");
    assert KNOWN_LIST_KEYS[..4] == ["teams", "projects", "deployments", "members"];
    assert IsPayloadField(fields, 2);
    PayloadFieldIsTaken(fields, 2);
  }

  // ---- the network ------------------------------------------------------------------------

  datatype Verdict = Accepted | Failed(status: nat)

  datatype Session = Session(accessToken: string, refreshToken: string, tokenType: string, user: Option<string>)

  datatype RefreshReply = Granted(session: Session) | Refused(status: nat)

  /**
   * Page `i` is asked for with `cursors[i]` and announces `cursors[i + 1]`. Request number `n`
   * made with a token gets `verdict(n, token)`; `diskOk` says whether the config can be written.
   */
  datatype Net = Net(
    bodies: seq<Json>, cursors: seq<string>, verdict: (nat, string) -> Verdict,
    refresh: string -> RefreshReply, diskOk: bool)
  {
    predicate Valid() {
      && |bodies| == |cursors| > 0 && cursors[0] == ""
      && (forall i :: 1 <= i < |cursors| ==> cursors[i] != "")
      && (forall i, j :: 0 <= i < j < |cursors| ==> cursors[i] != cursors[j])
    }

    function Next(i: nat): string
      requires Valid() && i < |bodies|
    {
      if i + 1 < |cursors| then cursors[i + 1] else ""
    }
  }

  function PageIndex(cursors: seq<string>, cursor: string): nat
    requires cursor in cursors
    ensures PageIndex(cursors, cursor) < |cursors| && cursors[PageIndex(cursors, cursor)] == cursor
  {
    if cursors[0] == cursor then 0 else 1 + PageIndex(cursors[1..], cursor)
  }

  /** The server cuts `rows` into the payloads of its pages, at `cuts`. */
  ghost predicate Serves(net: Net, rows: seq<Json>, cuts: seq<nat>) {
    && net.Valid() && |cuts| == |net.bodies| + 1 && cuts[0] == 0 && cuts[|cuts| - 1] == |rows|
    && (forall i :: 0 <= i < |net.bodies| ==> ServesPage(net, rows, cuts, i))
  }

  predicate ServesPage(net: Net, rows: seq<Json>, cuts: seq<nat>, i: nat)
    requires |cuts| == |net.bodies| + 1 && i < |net.bodies|
  {
    && cuts[i] <= cuts[i + 1] <= |rows|
    && ExtractListPayload(net.bodies[i]) == Some(rows[cuts[i]..cuts[i + 1]])
  }

  // ---- one listing, and the call around it ------------------------------------------------

  datatype Error = ApiError(status: nat) | SessionExpired | WriteFailed

  datatype Outcome = Listed(items: seq<Json>) | Thrown(error: Error)

  datatype Pass = Pass(outcome: Outcome, used: nat)

  /** `listAll` from page `i` on, with request number `at` next and `acc` already collected. */
  function PassFrom(net: Net, token: string, at: nat, i: nat, acc: seq<Json>): Pass
    requires net.Valid() && i < |net.bodies|
    decreases |net.bodies| - i
  {
    match net.verdict(at, token)
    case Failed(status) => Pass(Thrown(ApiError(status)), at + 1)
    case Accepted =>
      match ExtractListPayload(net.bodies[i])
      case None => Pass(Thrown(ApiError(0)), at + 1)
      case Some(rows) =>
        if i + 1 < |net.bodies| then PassFrom(net, token, at + 1, i + 1, acc + rows)
        else Pass(Listed(acc + rows), at + 1)
  }

  datatype Config = Config(accessToken: string, refreshToken: string, tokenType: string, user: Option<string>)

  /**
   * The config in memory, the client's own copy of the token, the config on disk, the number of requests
   * sent and the refresh tokens posted so far.
   */
  datatype Cli = Cli(cfg: Config, client: string, saved: Option<Config>, sent: nat, posted: seq<string>)

  function Merge(cfg: Config, session: Session): Config {
    Config(session.accessToken, OrElse(session.refreshToken, cfg.refreshToken),
           OrElse(session.tokenType, OrElse(cfg.tokenType, "Bearer")),
           if session.user.Some? then session.user else cfg.user)
  }

  function Call(net: Net, c: Cli): (Outcome, Cli)
    requires net.Valid()
  {
    var first := PassFrom(net, c.client, c.sent, 0, []);
    var c1 := c.(sent := first.used);
    if first.outcome != Thrown(ApiError(401)) || c.cfg.refreshToken == "" then (first.outcome, c1)
    else
      var c2 := c1.(posted := c.posted + [c.cfg.refreshToken]);
      match net.refresh(c.cfg.refreshToken)
      case Refused(_) => (Thrown(SessionExpired), c2)
      case Granted(session) =>
        if session.accessToken == "" then (Thrown(SessionExpired), c2)
        else
          var cfg := Merge(c.cfg, session);
          if !net.diskOk then (Thrown(WriteFailed), c2.(cfg := cfg))
          else
            var again := PassFrom(net, cfg.accessToken, c2.sent, 0, []);
            (again.outcome, Cli(cfg, cfg.accessToken, Some(cfg), again.used, c2.posted))
  }

  class RefreshableApi {
    const net: Net
    var cfg: Config
    var accessToken: string
    var saved: Option<Config>
    var sent: nat
    var posted: seq<string>

    constructor (net: Net, cfg: Config)
      ensures this.net == net && View() == Cli(cfg, cfg.accessToken, Some(cfg), 0, [])
    {
      this.net, this.cfg, accessToken, saved, sent, posted := net, cfg, cfg.accessToken, Some(cfg), 0, [];
    }

    ghost function View(): Cli
      reads this
    {
      Cli(cfg, accessToken, saved, sent, posted)
    }

    /** One page, or the status the request failed with. */
    method Request(cursor: string) returns (verdict: Verdict, body: Json, next: string)
      requires net.Valid() && cursor in net.cursors
      modifies this`sent
      ensures sent == old(sent) + 1 && verdict == net.verdict(old(sent), accessToken)
      ensures var i := PageIndex(net.cursors, cursor); body == net.bodies[i] && next == net.Next(i)
    {
      var i := PageIndex(net.cursors, cursor);
      verdict, body, next := net.verdict(sent, accessToken), net.bodies[i], net.Next(i);
      sent := sent + 1;
    }

    method ListAll() returns (outcome: Outcome)
      requires net.Valid()
      modifies this`sent
      ensures var pass := PassFrom(net, accessToken, old(sent), 0, []);
        outcome == pass.outcome && sent == pass.used
    {
      var items, cursor, more := [], "", true;
      ghost var i := 0;
      while more
        invariant more ==> i < |net.bodies| && cursor == net.cursors[i]
        invariant more ==> PassFrom(net, accessToken, old(sent), 0, []) == PassFrom(net, accessToken, sent, i, items)
        invariant !more ==> PassFrom(net, accessToken, old(sent), 0, []) == Pass(Listed(items), sent)
        decreases |net.bodies| - i, more
      {
        var verdict, body, next := Request(cursor);
        assert PageIndex(net.cursors, cursor) == i;
        if verdict.Failed? {
          return Thrown(ApiError(verdict.status));
        }
        var rows := ExtractListPayload(body);
        if rows.None? {
          return Thrown(ApiError(0));
        }
        items := items + rows.value;
        cursor := next;
        more := cursor != "";
        i := if more then i + 1 else i;
      }
      return Listed(items);
    }

    /** Any method of the wrapped client, here the listing. */
    method Refreshing() returns (outcome: Outcome)
      requires net.Valid()
      modifies this
      ensures (outcome, View()) == Call(net, old(View()))
    {
      outcome := ListAll();
      if outcome != Thrown(ApiError(401)) || cfg.refreshToken == "" {
        return;
      }
      posted := posted + [cfg.refreshToken];
      var reply := net.refresh(cfg.refreshToken);
      if reply.Refused? || reply.session.accessToken == "" {
        return Thrown(SessionExpired);
      }
      var session := reply.session;
      cfg := Config(
        session.accessToken,
        if session.refreshToken != "" then session.refreshToken else cfg.refreshToken,
        if session.tokenType != "" then session.tokenType else if cfg.tokenType != "" then cfg.tokenType else "Bearer",
        if session.user.Some? then session.user else cfg.user);
      if !net.diskOk {
        return Thrown(WriteFailed);
      }
      saved := Some(cfg);
      accessToken := cfg.accessToken;
      outcome := ListAll();
    }
  }

  // ---- what the call promises -------------------------------------------------------------

  /** Requests `from` to `to - 1` are let through with this token. */
  ghost predicate Accepts(net: Net, token: string, from: nat, to: int) {
    forall n :: from <= n < to ==> net.verdict(n, token) == Accepted
  }

  /** Of the `pages` requests from `from` on, number `n` is the first refused, with this status. */
  ghost predicate RefusedAt(net: Net, token: string, from: nat, pages: nat, n: nat, status: nat) {
    from <= n < from + pages && Accepts(net, token, from, n) && net.verdict(n, token) == Failed(status)
  }

  lemma {:induction false} PassExact(net: Net, token: string, at: nat, i: nat, rows: seq<Json>, cuts: seq<nat>)
    requires Serves(net, rows, cuts) && i < |net.bodies| && cuts[i] <= |rows|
    ensures var pass := PassFrom(net, token, at, i, rows[..cuts[i]]); var pages := |net.bodies| - i;
      if Accepts(net, token, at, at + pages) then pass == Pass(Listed(rows), at + pages)
      else
        && at < pass.used <= at + pages
        && exists status :: pass.outcome == Thrown(ApiError(status))
                            && RefusedAt(net, token, at, pages, pass.used - 1, status)
    decreases |net.bodies| - i
  {
    var pages := |net.bodies| - i;
    assert ServesPage(net, rows, cuts, i);
    if net.verdict(at, token).Accepted? {
      assert rows[..cuts[i]] + rows[cuts[i]..cuts[i + 1]] == rows[..cuts[i + 1]];
      if i + 1 < |net.bodies| {
        PassExact(net, token, at + 1, i + 1, rows, cuts);
        var pass := PassFrom(net, token, at, i, rows[..cuts[i]]);
        if pass.outcome.Thrown? {
          var status :| pass.outcome == Thrown(ApiError(status))
            && RefusedAt(net, token, at + 1, pages - 1, pass.used - 1, status);
          assert RefusedAt(net, token, at, pages, pass.used - 1, status);
        }
      } else {
        assert rows[..cuts[i + 1]] == rows;
      }
    } else {
      assert RefusedAt(net, token, at, pages, at, net.verdict(at, token).status);
    }
  }

  /** The refresh token is exchanged for a usable session, and the config can be saved. */
  predicate Renews(net: Net, cfg: Config) {
    && cfg.refreshToken != "" && net.diskOk
    && net.refresh(cfg.refreshToken).Granted? && net.refresh(cfg.refreshToken).session.accessToken != ""
  }

  /**
   * Wherever the token expires, the call returns the server's whole list in order or throws; and it
   * returns exactly when the old token lasts, or the first refusal is a 401, renewing works, and the
   * new token lasts for a listing from the first page.
   */
  lemma CallListsEverythingExactly(net: Net, c: Cli, rows: seq<Json>, cuts: seq<nat>)
    requires Serves(net, rows, cuts)
    ensures var (outcome, after) := Call(net, c); var pages := |net.bodies|;
      && (outcome.Listed? ==> outcome.items == rows)
      && (outcome.Listed? <==>
            || Accepts(net, c.client, c.sent, c.sent + pages)
            || exists n: nat :: RefusedAt(net, c.client, c.sent, pages, n, 401) && Renews(net, c.cfg)
                && Accepts(net, net.refresh(c.cfg.refreshToken).session.accessToken, n + 1, n + 1 + pages))
      && c.sent < after.sent <= c.sent + 2 * pages
      && (after.posted == c.posted || after.posted == c.posted + [c.cfg.refreshToken])
  {
    hide PassFrom;
    var pages := |net.bodies|;
    assert rows[..cuts[0]] == [];
    PassExact(net, c.client, c.sent, 0, rows, cuts);
    var first := PassFrom(net, c.client, c.sent, 0, []);
    if !Accepts(net, c.client, c.sent, c.sent + pages) {
      var status :| first.outcome == Thrown(ApiError(status))
        && RefusedAt(net, c.client, c.sent, pages, first.used - 1, status);
      forall n, other | RefusedAt(net, c.client, c.sent, pages, n, other)
        ensures n == first.used - 1 && other == status
      {
        OneFirstRefusal(net, c.client, c.sent, pages, n, other, first.used - 1, status);
      }
      if status == 401 && Renews(net, c.cfg) {
        PassExact(net, net.refresh(c.cfg.refreshToken).session.accessToken, first.used, 0, rows, cuts);
      }
    }
  }

  lemma OneFirstRefusal(net: Net, token: string, from: nat, pages: nat, n: nat, a: nat, m: nat, b: nat)
    requires RefusedAt(net, token, from, pages, n, a) && RefusedAt(net, token, from, pages, m, b)
    ensures n == m && a == b
  {
    assert n < m ==> net.verdict(n, token) == Accepted;
    assert m < n ==> net.verdict(m, token) == Accepted;
  }

  /** A page without any array in it is never skipped over: the listing throws. */
  lemma {:induction false} BadPageThrows(net: Net, token: string, at: nat, i: nat, acc: seq<Json>, bad: nat)
    requires net.Valid() && i <= bad < |net.bodies| && ExtractListPayload(net.bodies[bad]) == None
    ensures PassFrom(net, token, at, i, acc).outcome.Thrown?
    decreases bad - i
  {
    if net.verdict(at, token).Accepted? && i < bad {
      var rows := ExtractListPayload(net.bodies[i]);
      if rows.Some? { BadPageThrows(net, token, at + 1, i + 1, acc + rows.value, bad); }
    }
  }

  /** The first such page that is reached ends the listing, with the requests made so far. */
  lemma {:induction false} BadPageExactly(net: Net, token: string, at: nat, i: nat, acc: seq<Json>, bad: nat)
    requires net.Valid() && i <= bad < |net.bodies| && ExtractListPayload(net.bodies[bad]) == None
    requires forall k :: i <= k < bad ==> ExtractListPayload(net.bodies[k]).Some?
    requires Accepts(net, token, at, at + (bad - i) + 1)
    ensures PassFrom(net, token, at, i, acc) == Pass(Thrown(ApiError(0)), at + (bad - i) + 1)
    decreases bad - i
  {
    assert net.verdict(at, token) == Accepted;
    if i < bad {
      BadPageExactly(net, token, at + 1, i + 1, acc + ExtractListPayload(net.bodies[i]).value, bad);
    }
  }

  function Concat(pages: seq<seq<Json>>): seq<Json> {
    if pages == [] then [] else Concat(pages[..|pages| - 1]) + pages[|pages| - 1]
  }

  /** Where the pages end in what they add up to. */
  function Cuts(pages: seq<seq<Json>>): seq<nat> {
    seq(|pages| + 1, i requires 0 <= i <= |pages| => |Concat(pages[..i])|)
  }

  /** Any pages, empty ones too, are a way to serve the rows they add up to. */
  lemma PagesServeTheirRows(net: Net, pages: seq<seq<Json>>)
    requires net.Valid() && |net.bodies| == |pages|
    requires forall i :: 0 <= i < |pages| ==> net.bodies[i] == JsonArray(pages[i])
    ensures Serves(net, Concat(pages), Cuts(pages))
  {
    CutsEnd(pages);
    hide ServesPage, Concat, Cuts;
    forall i | 0 <= i < |net.bodies| ensures ServesPage(net, Concat(pages), Cuts(pages), i) {
      PageIsServed(net, pages, i);
    }
  }

  lemma CutsEnd(pages: seq<seq<Json>>)
    ensures |Cuts(pages)| == |pages| + 1 && Cuts(pages)[0] == 0 && Cuts(pages)[|pages|] == |Concat(pages)|
  {
    assert pages[..|pages|] == pages && pages[..0] == [];
  }

  lemma PageIsServed(net: Net, pages: seq<seq<Json>>, i: nat)
    requires |net.bodies| == |pages| && i < |pages| && net.bodies[i] == JsonArray(pages[i])
    ensures ServesPage(net, Concat(pages), Cuts(pages), i)
  {
    PageOfConcat(pages, i);
    hide Concat;
  }

  lemma PageOfConcat(pages: seq<seq<Json>>, i: nat)
    requires i < |pages|
    ensures |Concat(pages[..i])| <= |Concat(pages[..i + 1])| <= |Concat(pages)|
    ensures Concat(pages)[|Concat(pages[..i])|..|Concat(pages[..i + 1])|] == pages[i]
  {
    ConcatPrefix(pages, i + 1);
    assert pages[..i + 1][..i] == pages[..i];
    var before, next := Concat(pages[..i]), Concat(pages[..i + 1]);
    assert next == before + pages[i];
    hide Concat;
    assert Concat(pages)[..|next|] == next;
    assert next[|before|..] == pages[i];
  }

  lemma {:induction false} ConcatPrefix(pages: seq<seq<Json>>, n: nat)
    requires n <= |pages|
    ensures Concat(pages[..n]) <= Concat(pages)
  {
    if n == |pages| {
      assert pages[..n] == pages;
    } else {
      ConcatPrefix(pages[..|pages| - 1], n);
      assert pages[..|pages| - 1][..n] == pages[..n];
    }
  }

  /** The config in memory, the one on disk and the client hold the same token. */
  predicate InStep(c: Cli) {
    c.client == c.cfg.accessToken && c.saved == Some(c.cfg)
  }

  /** At least the one on disk and the client do. */
  predicate DiskAndClientAgree(c: Cli) {
    c.saved.Some? && c.client == c.saved.value.accessToken
  }

  /** The call meets a 401 and exchanges the refresh token for a usable session. */
  predicate RenewsIn(net: Net, c: Cli)
    requires net.Valid()
  {
    && PassFrom(net, c.client, c.sent, 0, []).outcome == Thrown(ApiError(401)) && c.cfg.refreshToken != ""
    && net.refresh(c.cfg.refreshToken).Granted? && net.refresh(c.cfg.refreshToken).session.accessToken != ""
  }

  /**
   * Returning or throwing: a renewal that is saved puts all three in step, whatever they were before; one
   * that is not saved changes only the config in memory; without a renewal none changes.
   */
  lemma CallKeepsTokensInStep(net: Net, c: Cli)
    requires net.Valid()
    ensures var (outcome, after) := Call(net, c);
      && (DiskAndClientAgree(c) ==> DiskAndClientAgree(after))
      && (outcome == Thrown(WriteFailed) <==> RenewsIn(net, c) && !net.diskOk)
      && (RenewsIn(net, c) ==> after.cfg == Merge(c.cfg, net.refresh(c.cfg.refreshToken).session))
      && (if RenewsIn(net, c) then
            if net.diskOk then InStep(after) && after.client == net.refresh(c.cfg.refreshToken).session.accessToken
            else after.client == c.client && after.saved == c.saved
          else after.cfg == c.cfg && after.client == c.client && after.saved == c.saved && InStep(after) == InStep(c))
      && (after.posted == c.posted || after.posted == c.posted + [c.cfg.refreshToken])
  {
    PassThrowsApiErrors(net, c.client, c.sent, 0, []);
    if RenewsIn(net, c) {
      PassThrowsApiErrors(net, net.refresh(c.cfg.refreshToken).session.accessToken,
                            PassFrom(net, c.client, c.sent, 0, []).used, 0, []);
    }
  }

  lemma {:induction false} PassThrowsApiErrors(net: Net, token: string, at: nat, i: nat, acc: seq<Json>)
    requires net.Valid() && i < |net.bodies|
    ensures var outcome := PassFrom(net, token, at, i, acc).outcome; outcome.Thrown? ==> outcome.error.ApiError?
    decreases |net.bodies| - i
  {
    var rows := ExtractListPayload(net.bodies[i]);
    if net.verdict(at, token).Accepted? && rows.Some? && i + 1 < |net.bodies| {
      PassThrowsApiErrors(net, token, at + 1, i + 1, acc + rows.value);
    }
  }

  lemma InStepAgrees(c: Cli)
    ensures InStep(c) ==> DiskAndClientAgree(c)
  {
  }

  /** Any number of calls over a network that changes in between. */
  function Calls(nets: seq<Net>, c: Cli): Cli
    requires forall net :: net in nets ==> net.Valid()
  {
    if nets == [] then c else Call(nets[|nets| - 1], Calls(nets[..|nets| - 1], c)).1
  }

  /** A renewal that is not saved leaves the config in step exactly when it changed nothing the disk does not have. */
  lemma UnsavedRenewalExactly(net: Net, c: Cli)
    requires net.Valid() && DiskAndClientAgree(c) && RenewsIn(net, c) && !net.diskOk
    ensures var merged := Merge(c.cfg, net.refresh(c.cfg.refreshToken).session);
      Call(net, c).1.cfg == merged && (InStep(Call(net, c).1) <==> c.saved == Some(merged))
  {
    hide PassFrom;
  }

  /** The last call that renewed the session could not save it, and the disk holds another config. */
  predicate LastRenewalLost(nets: seq<Net>, c: Cli)
    requires forall net :: net in nets ==> net.Valid()
  {
    nets != []
    && var before, last := nets[..|nets| - 1], nets[|nets| - 1];
       var at := Calls(before, c);
       if RenewsIn(last, at) then
         !last.diskOk && at.saved != Some(Merge(at.cfg, last.refresh(at.cfg.refreshToken).session))
       else LastRenewalLost(before, c)
  }

  /**
   * After any calls, over disks that may fail, disk and client agree, and the config in memory agrees with
   * them exactly unless the last renewal was lost; no call refreshes twice.
   */
  lemma {:induction false} TokensStayInStep(nets: seq<Net>, c: Cli)
    requires InStep(c) && forall net :: net in nets ==> net.Valid()
    ensures var after := Calls(nets, c);
      && DiskAndClientAgree(after) && |after.posted| <= |c.posted| + |nets|
      && (InStep(after) <==> !LastRenewalLost(nets, c))
  {
    hide Call, RenewsIn, InStep, DiskAndClientAgree, Merge;
    if nets == [] {
      InStepAgrees(c);
    } else {
      var last, at := nets[|nets| - 1], Calls(nets[..|nets| - 1], c);
      TokensStayInStep(nets[..|nets| - 1], c);
      CallKeepsTokensInStep(last, at);
      if RenewsIn(last, at) && !last.diskOk {
        RenewalIsGranted(last, at);
        UnsavedRenewalExactly(last, at);
      }
    }
  }

  lemma RenewalIsGranted(net: Net, c: Cli)
    requires net.Valid() && RenewsIn(net, c)
    ensures net.refresh(c.cfg.refreshToken).Granted?
  {
  }

  /** What a renewal leaves in the config: what the session brings, and the old value of what it does not. */
  lemma RenewedConfig(net: Net, c: Cli)
    requires net.Valid() && RenewsIn(net, c)
    ensures net.refresh(c.cfg.refreshToken).Granted?
    ensures var session, cfg := net.refresh(c.cfg.refreshToken).session, Call(net, c).1.cfg;
      && cfg.accessToken == session.accessToken
      && (session.refreshToken != "" ==> cfg.refreshToken == session.refreshToken)
      && (session.refreshToken == "" ==> cfg.refreshToken == c.cfg.refreshToken)
      && (session.tokenType != "" ==> cfg.tokenType == session.tokenType)
      && (session.tokenType == "" && c.cfg.tokenType != "" ==> cfg.tokenType == c.cfg.tokenType)
      && (session.tokenType == "" && c.cfg.tokenType == "" ==> cfg.tokenType == "Bearer")
      && (session.user.Some? ==> cfg.user == session.user)
      && (session.user.None? ==> cfg.user == c.cfg.user)
  {
    hide PassFrom;
  }

  /** The last refresh token the server granted, or the one the CLI started with. */
  function LastGranted(nets: seq<Net>, c: Cli): string
    requires forall net :: net in nets ==> net.Valid()
  {
    if nets == [] then c.cfg.refreshToken
    else
      var before, last := nets[..|nets| - 1], nets[|nets| - 1];
      var at := Calls(before, c);
      if RenewsIn(last, at) && last.refresh(at.cfg.refreshToken).session.refreshToken != "" then
        last.refresh(at.cfg.refreshToken).session.refreshToken
      else LastGranted(before, c)
  }

  /** Every refresh posts the last token granted, saved or not. */
  lemma {:induction false} PostsLastGranted(nets: seq<Net>, c: Cli, net: Net)
    requires net.Valid() && forall each :: each in nets ==> each.Valid()
    ensures var at := Calls(nets, c);
      && at.cfg.refreshToken == LastGranted(nets, c)
      && (Call(net, at).1.posted == at.posted || Call(net, at).1.posted == at.posted + [LastGranted(nets, c)])
  {
    hide Call, RenewsIn, Merge;
    var at := Calls(nets, c);
    if nets != [] {
      var before, last := nets[..|nets| - 1], nets[|nets| - 1];
      PostsLastGranted(before, c, last);
      CallKeepsTokensInStep(last, Calls(before, c));
      if RenewsIn(last, Calls(before, c)) { RenewedConfig(last, Calls(before, c)); }
    }
    CallKeepsTokensInStep(net, at);
  }

  /** Which error the operator sees: to log in again exactly when renewing was tried and brought no session. */
  lemma ThrowsExactly(net: Net, c: Cli)
    requires net.Valid()
    ensures var outcome, first := Call(net, c).0, PassFrom(net, c.client, c.sent, 0, []).outcome;
      && (first != Thrown(ApiError(401)) || c.cfg.refreshToken == "" ==> outcome == first)
      && (outcome == Thrown(SessionExpired) <==>
            first == Thrown(ApiError(401)) && c.cfg.refreshToken != "" && !RenewsIn(net, c))
  {
    hide PassFrom;
    PassThrowsApiErrors(net, c.client, c.sent, 0, []);
    if RenewsIn(net, c) {
      PassThrowsApiErrors(net, net.refresh(c.cfg.refreshToken).session.accessToken,
                          PassFrom(net, c.client, c.sent, 0, []).used, 0, []);
    }
  }

  /** A call refreshes exactly when it meets a 401 with a refresh token to post. */
  lemma PostsExactly(net: Net, c: Cli)
    requires net.Valid()
    ensures Call(net, c).1.posted != c.posted <==>
      PassFrom(net, c.client, c.sent, 0, []).outcome == Thrown(ApiError(401)) && c.cfg.refreshToken != ""
  {
    hide PassFrom;
  }
}
