/** What the DNS handler decides for one request, read off the database rows. */
module Handlers {
  import opened Bytes
  import opened Lists
  import opened Lines
  import opened Stores
  import opened Tables
  import opened Runtime
  import opened Servers

  datatype QueryClass = IN | OtherClass
  datatype QueryType = A | AAAA | OtherType
  datatype BlockMode = NxDomainMode | NullIpMode

  /** Addresses are opaque numbers here. */
  datatype Rule = Rule(ipv4: Option<nat>, ipv6: Option<nat>)

  datatype Question = Question(name: Text, qtype: QueryType, dnsClass: QueryClass)
  datatype Request = Request(source: nat, question: Option<Question>)

  datatype BlockResponse = Answer(ip: nat) | NxDomain | RefusedType

  datatype Outcome =
    | Overloaded
    | AccessDenied
    | NoQuestion
    | ClassRefused
    | Rewritten(ip: nat)
    | Blocked(response: BlockResponse, ede: nat)
    | Forward(allowlisted: bool)

  const EDE_FORGED_ANSWER := 4
  const EDE_BLOCKED := 15

  function BlockedResponse(mode: BlockMode, qtype: QueryType, sink4: nat, sink6: nat): BlockResponse {
    match (mode, qtype)
    case (NxDomainMode, _) => NxDomain
    case (NullIpMode, A) => Answer(sink4)
    case (NullIpMode, AAAA) => Answer(sink6)
    case (NullIpMode, OtherType) => RefusedType
  }

  function InfoCode(r: BlockResponse): nat {
    if r.Answer? then EDE_FORGED_ANSWER else EDE_BLOCKED
  }

  /** The rewrite that applies to a query, if its rule has an address of the queried type. */
  function RewriteFor(rewrites: map<Text, Rule>, domain: Text, qtype: QueryType): Option<nat> {
    if domain !in rewrites then None
    else match qtype
      case A => rewrites[domain].ipv4
      case AAAA => rewrites[domain].ipv6
      case OtherType => None
  }

  datatype Config = Config(allowed: set<nat>, rewrites: map<Text, Rule>, mode: BlockMode, sink4: nat, sink6: nat)

  /** A table row covers a name: equal to it, or a wildcard row whose suffix follows a dot in it. */
  predicate RowCovers(row: Text, d: Text) {
    if HasWildcardPrefix(row) then Storable(row[2..]) && EndsWith(d, [DOT] + row[2..])
    else Storable(row) && row == d
  }

  ghost predicate Covered(rows: Rows, d: Text) {
    exists r :: r in rows && RowCovers(r, d)
  }

  /**
   In bytes: a row `*.x` covers the names that end in `.x`, which `x` itself does not, and any other row
   covers itself. Names of no byte or of more than 65535 bytes are never stored.
   */
  lemma RowCoversByBytes(row: Text, d: Text)
    ensures RowCovers(row, d) <==>
            if |row| >= 2 && row[0] == 42 && row[1] == 46 then
              3 <= |row| <= 65537 && |row| - 1 <= |d| && d[|d| - |row| + 1..] == row[1..]
            else row == d && 1 <= |row| <= 65535
    ensures row == [42, 46] + d ==> !RowCovers(row, d)
  {
    if HasWildcardPrefix(row) {
      assert [DOT] + row[2..] == row[1..];
    }
  }

  /** Matching against the image of a stable table is being covered by one of its rows. */
  lemma MatchesIsCovered(rows: Rows, d: Text)
    requires StableRows(rows)
    ensures Lists.Matches(Image(rows), d) <==> Covered(rows, d)
  {
  }

  /** The address a rewrite rule gives for a question. */
  ghost predicate RewritesTo(rewrites: map<Text, Rule>, d: Text, qtype: QueryType, ip: nat) {
    d in rewrites && ((qtype == A && rewrites[d].ipv4 == Some(ip)) || (qtype == AAAA && rewrites[d].ipv6 == Some(ip)))
  }

  /**
   The outcome of a request, on the database rows alone and in the order the checks are made. A question is
   blocked if some blocklist row covers it, no allowlist row does and no rewrite applies: with code 4 and the
   sinkhole's address of the queried type, with code 15 and no record if there is none or the mode is NXDOMAIN.
   */
  ghost predicate Decided(lists: PerList<Rows>, config: Config, request: Request, permit: bool, outcome: Outcome) {
    && (outcome.Overloaded? <==> !permit)
    && (outcome.AccessDenied? <==> permit && request.source !in config.allowed)
    && (outcome.NoQuestion? <==> permit && request.source in config.allowed && request.question.None?)
    && (permit && request.source in config.allowed && request.question.Some? ==>
          Answered(lists, config, request.question.value, outcome))
  }

  ghost predicate Answered(lists: PerList<Rows>, config: Config, q: Question, outcome: Outcome) {
    var d := Normalize(q.name);
    var rewritten := exists ip :: RewritesTo(config.rewrites, d, q.qtype, ip);
    var (allowed, blocked) := (Covered(lists.allow, d), Covered(lists.block, d));
    && (outcome.ClassRefused? <==> q.dnsClass != IN)
    && (outcome.Rewritten? <==> q.dnsClass == IN && rewritten)
    && (outcome.Rewritten? ==> RewritesTo(config.rewrites, d, q.qtype, outcome.ip))
    && (outcome.Blocked? <==> q.dnsClass == IN && !rewritten && blocked && !allowed)
    && (outcome.Blocked? ==>
          && (config.mode == NxDomainMode ==> outcome.response == NxDomain && outcome.ede == 15)
          && (config.mode == NullIpMode && q.qtype == A ==>
                outcome.response == Answer(config.sink4) && outcome.ede == 4)
          && (config.mode == NullIpMode && q.qtype == AAAA ==>
                outcome.response == Answer(config.sink6) && outcome.ede == 4)
          && (config.mode == NullIpMode && q.qtype == OtherType ==>
                outcome.response == RefusedType && outcome.ede == 15))
    && (outcome.Forward? <==> q.dnsClass == IN && !rewritten && (allowed || !blocked))
    && (outcome.Forward? ==> outcome.allowlisted == allowed)
  }

  /** A listed name is covered however its letters are spelled and whether or not a dot follows. */
  lemma CoveredHoweverSpelled(rows: Rows, row: Text, name: Text)
    requires StableRows(rows) && row in rows && 1 <= |row| <= 65535 && !(|row| >= 2 && row[0] == 42 && row[1] == 46)
    requires SameButCase(Undotted(name), row)
    ensures Covered(rows, Normalize(name))
  {
    assert Stable(row);
    NormalizeByBytes(row);
    assert Undotted(row) == row;
    NormalizeAlikeIff(name, row);
    assert RowCovers(row, Normalize(name));
  }

  /** Only one outcome fits a request, and it is the same however the letters of the name are spelled. */
  lemma SpellingDoesNotMatter(lists: PerList<Rows>, config: Config, permit: bool, source: nat, name: Text, other: Text,
                              qtype: QueryType, dnsClass: QueryClass, outcome: Outcome, outcome': Outcome)
    requires SameButCase(Undotted(name), Undotted(other))
    requires Decided(lists, config, Request(source, Some(Question(name, qtype, dnsClass))), permit, outcome)
    requires Decided(lists, config, Request(source, Some(Question(other, qtype, dnsClass))), permit, outcome')
    ensures outcome == outcome'
  {
    NormalizeAlikeIff(name, other);
  }

  /**
   The decision for one request, by hash lookups in the packed stores. Its result is stated on the
   database rows alone.
   */
  method HandleRequest(server: Server, config: Config, request: Request, permit: bool) returns (outcome: Outcome)
    requires server.Valid() && server.Agrees()
    ensures Decided(server.db.lists, config, request, permit, outcome)
  {
    if !permit {
      return Overloaded;
    }
    if request.source !in config.allowed {
      return AccessDenied;
    }
    if request.question.None? {
      return NoQuestion;
    }
    var q := request.question.value;
    var domain := Normalize(q.name);
    if q.dnsClass != IN {
      return ClassRefused;
    }
    var rewrite := RewriteFor(config.rewrites, domain, q.qtype);
    assert rewrite.Some? ==> RewritesTo(config.rewrites, domain, q.qtype, rewrite.value);
    if rewrite.Some? {
      return Rewritten(rewrite.value);
    }
    MatchesIsCovered(server.db.lists.allow, domain);
    MatchesIsCovered(server.db.lists.block, domain);
    var allowlisted := server.allowlist.Matches(domain);
    if allowlisted {
      return Forward(true);
    }
    var blocked := server.blocklist.Matches(domain);
    if blocked {
      var response := BlockedResponse(config.mode, q.qtype, config.sink4, config.sink6);
      return Blocked(response, InfoCode(response));
    }
    return Forward(false);
  }
}
