/**
 * The creation handler (lambdas/lambda-generate-url-shortener.py): it
 * takes a URL with an optional alias and time-to-live, settles on a code
 * (the alias if it is free, otherwise random 8-character codes until one is
 * free), writes one item to the table and answers with the short link.
 *
 * The table is a `Table.Store`; the clock (`now`), the random draws of
 * `random.sample`, the local-time formatting of the expiry and the domain
 * are parameters.
 */
module Allocator {
  import opened Wrappers
  import opened Table

  // ---------------------------------------------------------------------
  // Expiry
  // ---------------------------------------------------------------------

  /** A hundred years of 365 days, in seconds: `60 * 60 * 24 * 365 * 100`. */
  const DefaultSeconds := 60 * 60 * 24 * 365 * 100

  /** Python truthiness of an optional integer: present and non-zero. */
  predicate TruthyInt(n: Option<int>) {
    n.Some? && n.value != 0
  }

  /** Python truthiness of an optional text: present and non-empty. */
  predicate TruthyText(s: Option<string>) {
    s.Some? && s.value != ""
  }

  /** `sec2Epoch(seconds)` evaluated at the instant `now` (whole seconds). */
  function Sec2Epoch(seconds: Option<int>, now: int): (epoch: int)
    ensures TruthyInt(seconds) ==> epoch == now + seconds.value
    ensures !TruthyInt(seconds) ==> epoch == now + 3153600000
  {
    var s := if TruthyInt(seconds) then seconds.value else DefaultSeconds;
    now + s
  }

  /** No time-to-live, and a time-to-live of 0, both mean a hundred years; a positive one lies ahead. */
  lemma ExpiryAhead(seconds: Option<int>, now: int)
    requires seconds.None? || seconds.value >= 0
    ensures Sec2Epoch(seconds, now) > now
    ensures Sec2Epoch(seconds, now) == Sec2Epoch(None, now) <==> !TruthyInt(seconds) || seconds.value == DefaultSeconds
  {
  }

  // ---------------------------------------------------------------------
  // Codes
  // ---------------------------------------------------------------------

  /** `string.ascii_lowercase`. */
  const AsciiLowercase := "abcdefghijklmnopqrstuvwxyz"
  /** `string.digits`. */
  const Digits := "0123456789"
  /** `string.ascii_lowercase + string.digits`, the population codes are drawn from. */
  const Alphabet := AsciiLowercase + Digits
  const CodeLength := 8

  predicate IsCodeChar(c: char) {
    'a' <= c <= 'z' || '0' <= c <= '9'
  }

  predicate Distinct<T(==)>(s: seq<T>) {
    forall i, j :: 0 <= i < j < |s| ==> s[i] != s[j]
  }

  /** What a generated code is: 8 pairwise distinct characters from a-z0-9. */
  predicate IsGeneratedCode(code: string) {
    |code| == CodeLength && (forall i :: 0 <= i < |code| ==> IsCodeChar(code[i])) && Distinct(code)
  }

  /** The position of a code character in the alphabet. */
  function Rank(c: char): int {
    if 'a' <= c <= 'z' then c as int - 'a' as int else c as int - '0' as int + 26
  }

  /** Each position of the alphabet holds a code character whose rank is that position. */
  lemma AlphabetRanks(p: nat)
    requires p < |Alphabet|
    ensures IsCodeChar(Alphabet[p]) && Rank(Alphabet[p]) == p
  {
    if p < 13 {
      var h := "abcdefghijklm";
      assert Alphabet[p] == h[p];
      assert h == "abcdef" + "ghijklm";
    } else if p < 26 {
      var h := "nopqrstuvwxyz";
      assert Alphabet[p] == h[p - 13];
      assert h == "nopqrs" + "tuvwxyz";
    } else {
      assert Alphabet[p] == Digits[p - 26];
    }
  }

  /** The population has no repeated character, so distinct positions give distinct characters. */
  lemma AlphabetDistinct(p: nat, q: nat)
    requires p < |Alphabet| && q < |Alphabet| && p != q
    ensures Alphabet[p] != Alphabet[q]
  {
    AlphabetRanks(p);
    AlphabetRanks(q);
  }

  /** The positions `random.sample` picks from the population, in order: 8 distinct ones. */
  predicate IsDraw(d: seq<nat>) {
    |d| == CodeLength && (forall i :: 0 <= i < |d| ==> d[i] < |Alphabet|) && Distinct(d)
  }

  type Draw = d: seq<nat> | IsDraw(d) witness [0, 1, 2, 3, 4, 5, 6, 7]

  /** `''.join(random.sample(string.ascii_lowercase + string.digits, 8))` for the draw `d`. */
  function Candidate(d: Draw): string {
    seq(CodeLength, i requires 0 <= i < CodeLength => Alphabet[d[i]])
  }

  /** Every draw gives a code of the promised shape. */
  lemma CandidateIsCode(d: Draw)
    ensures IsGeneratedCode(Candidate(d))
  {
    var code := Candidate(d);
    forall i | 0 <= i < |code| ensures IsCodeChar(code[i]) {
      AlphabetRanks(d[i]);
    }
    forall i, j | 0 <= i < j < |code| ensures code[i] != code[j] {
      AlphabetDistinct(d[i], d[j]);
    }
  }

  /** The keys the first `n` generation attempts look up: one candidate per attempt, in order. */
  function Candidates(sampler: nat -> Draw, n: nat): (codes: seq<string>)
    ensures |codes| == n
  {
    if n == 0 then [] else Candidates(sampler, n - 1) + [Candidate(sampler(n - 1))]
  }

  /** The `j`-th lookup of a run of attempts is the `j`-th candidate, and it is a generated code. */
  lemma {:induction false} CandidateAt(sampler: nat -> Draw, n: nat, j: nat)
    requires j < n
    ensures Candidates(sampler, n)[j] == Candidate(sampler(j))
    ensures IsGeneratedCode(Candidates(sampler, n)[j])
    decreases n
  {
    if j < n - 1 {
      CandidateAt(sampler, n - 1, j);
    } else {
      CandidateIsCode(sampler(j));
    }
  }

  lemma AppendAssoc<T>(a: seq<T>, b: seq<T>, c: seq<T>)
    ensures (a + b) + c == a + (b + c)
  {
  }

  /** The first `n` attempts were all looked up without fault and all found their candidate taken. */
  predicate AllTaken(items: map<string, Item>, faults: seq<Option<string>>, sampler: nat -> Draw, n: nat) {
    n == 0 || (AllTaken(items, faults, sampler, n - 1) && FaultAt(faults, n - 1).None?
               && Candidate(sampler(n - 1)) in items)
  }

  /** `AllTaken` is what it says, attempt by attempt. */
  lemma {:induction false} AllTakenAt(items: map<string, Item>, faults: seq<Option<string>>, sampler: nat -> Draw, n: nat, j: nat)
    requires AllTaken(items, faults, sampler, n) && j < n
    ensures FaultAt(faults, j).None? && Candidate(sampler(j)) in items
    decreases n
  {
    if j < n - 1 {
      AllTakenAt(items, faults, sampler, n - 1, j);
    }
  }

  /** Attempt `n` ends the loop: its lookup fails, or its candidate is free. */
  predicate Settles(items: map<string, Item>, faults: seq<Option<string>>, sampler: nat -> Draw, n: nat) {
    FaultAt(faults, n).Some? || Candidate(sampler(n)) !in items
  }

  /** Attempt `n` is the first to settle: every attempt before it was turned down. */
  predicate FirstSettles(items: map<string, Item>, faults: seq<Option<string>>, sampler: nat -> Draw, n: nat) {
    AllTaken(items, faults, sampler, n) && Settles(items, faults, sampler, n)
  }

  /**
   * At most one attempt is the first to settle, so the table, the fault
   * script and the draws decide how many candidates the loop turns down.
   */
  lemma {:induction false} FirstSettlesUnique(items: map<string, Item>, faults: seq<Option<string>>, sampler: nat -> Draw, a: nat, b: nat)
    requires FirstSettles(items, faults, sampler, a) && FirstSettles(items, faults, sampler, b)
    ensures a == b
  {
    if a < b {
      AllTakenAt(items, faults, sampler, b, a);
    } else if b < a {
      AllTakenAt(items, faults, sampler, a, b);
    }
  }

  /** What `generateCode` answers: failure with a message, or success with a code or with None. */
  datatype CodeResult = CodeFailed(message: string) | CodeOk(code: Option<string>)

  /** The keys a creation looks up: the alias, or every candidate up to the one that settles. */
  function LookedUp(sampler: nat -> Draw, alias: Option<string>, attempts: nat): (keys: seq<string>)
    ensures |keys| == if TruthyText(alias) then 1 else attempts + 1
  {
    if TruthyText(alias) then [alias.value] else Candidates(sampler, attempts + 1)
  }

  /**
   * What `generateCode` answers on the table `items` with the fault script
   * `faults`: for a truthy alias, the one lookup decides; otherwise the
   * lookup of attempt `attempts` does.
   */
  function CodeOutcome(items: map<string, Item>, faults: seq<Option<string>>, sampler: nat -> Draw,
                       alias: Option<string>, attempts: nat): CodeResult {
    if TruthyText(alias) then
      match FaultAt(faults, 0)
      case Some(m) => CodeFailed(m)
      case None => if alias.value in items then CodeOk(None) else CodeOk(alias)
    else
      match FaultAt(faults, attempts)
      case Some(m) => CodeFailed(m)
      case None => CodeOk(Some(Candidate(sampler(attempts))))
  }

  /**
   * What `generateCode`'s answer means for the table it was computed on: a
   * failure carries a scripted message, success without a code means the
   * alias is taken, and a code is free and is the alias or a generated code.
   */
  lemma CodeOutcomeMeaning(items: map<string, Item>, faults: seq<Option<string>>, sampler: nat -> Draw,
                           alias: Option<string>, attempts: nat)
    requires TruthyText(alias) ==> attempts == 0
    requires !TruthyText(alias) ==> FirstSettles(items, faults, sampler, attempts)
    ensures var r := CodeOutcome(items, faults, sampler, alias, attempts);
            && (r.CodeFailed? ==> Some(r.message) in faults)
            && (r == CodeOk(None) <==> TruthyText(alias) && FaultAt(faults, 0).None? && alias.value in items)
            && (r.CodeOk? && r.code.Some? ==>
                  && r.code.value != "" && r.code.value !in items
                  && (TruthyText(alias) ==> r.code.value == alias.value)
                  && (!TruthyText(alias) ==> IsGeneratedCode(r.code.value)))
  {
    if !TruthyText(alias) {
      CandidateIsCode(sampler(attempts));
    }
  }

  /**
   * `generateCode(alias)`. A truthy alias costs one lookup: a failed lookup
   * is a failure, a free alias is the code, a taken one is success with no
   * code. Otherwise the code is drawn at random, see `DrawCode`.
   */
  method GenerateCode(store: Store, alias: Option<string>, sampler: nat -> Draw)
    returns (r: CodeResult, ghost attempts: nat)
    requires store.Valid()
    requires !TruthyText(alias) ==> exists n: nat :: Settles(store.items, store.faults, sampler, n)
    modifies store
    ensures store.Valid() && store.items == old(store.items) && store.writes == old(store.writes)
    ensures TruthyText(alias) ==> attempts == 0
    ensures !TruthyText(alias) ==> FirstSettles(old(store.items), old(store.faults), sampler, attempts)
    ensures r == CodeOutcome(old(store.items), old(store.faults), sampler, alias, attempts)
    ensures store.lookups == old(store.lookups) + LookedUp(sampler, alias, attempts)
    ensures store.faults == Drop(old(store.faults), |LookedUp(sampler, alias, attempts)|)
  {
    if TruthyText(alias) {
      var found := store.Get(alias.value);
      attempts := 0;
      if found.LookupFailed? {
        r := CodeFailed(found.message);
      } else if !HasData(found) {
        r := CodeOk(alias);
      } else {
        r := CodeOk(None);
      }
    } else {
      r, attempts := DrawCode(store, sampler);
    }
  }

  /**
   * The end of a run of random draws that turned down `attempts` candidates:
   * each turned-down candidate was looked up without fault and was taken;
   * the next lookup failed, or found its candidate free, and that decides
   * the answer.
   */
  ghost predicate Drawn(items: map<string, Item>, faults: seq<Option<string>>, lookups: seq<string>, sampler: nat -> Draw,
                        faults': seq<Option<string>>, lookups': seq<string>, r: CodeResult, attempts: nat) {
    && lookups' == lookups + Candidates(sampler, attempts + 1)
    && faults' == Drop(faults, attempts + 1)
    && AllTaken(items, faults, sampler, attempts)
    && r == (match FaultAt(faults, attempts)
             case Some(m) => CodeFailed(m)
             case None => CodeOk(Some(Candidate(sampler(attempts)))))
    && (r.CodeOk? ==> Candidate(sampler(attempts)) !in items)
  }

  /**
   * The `while invalid` loop of `generateCode`: draw a candidate, look it
   * up, stop on a failed lookup or a free candidate. It ends provided some
   * attempt settles (the source loops for ever otherwise).
   */
  method DrawCode(store: Store, sampler: nat -> Draw) returns (r: CodeResult, ghost attempts: nat)
    requires store.Valid()
    requires exists n: nat :: Settles(store.items, store.faults, sampler, n)
    modifies store
    ensures store.Valid() && store.items == old(store.items)
    ensures store.writes == old(store.writes)
    ensures Drawn(old(store.items), old(store.faults), old(store.lookups), sampler, store.faults, store.lookups, r, attempts)
  {
    ghost var items0, faults0, lookups0 := store.items, store.faults, store.lookups;
    ghost var bound: nat :| Settles(items0, faults0, sampler, bound);
    var invalid := true;
    var code := "";
    var i: nat := 0;
    ghost var made: nat := 0;
    while invalid
      invariant store.Valid() && store.items == items0 && store.writes == old(store.writes)
      invariant invalid ==> i <= bound
      invariant made == (if invalid then i else i + 1) && made <= bound + 1
      invariant AllTaken(items0, faults0, sampler, i)
      invariant store.faults == Drop(faults0, made)
      invariant store.lookups == lookups0 + Candidates(sampler, made)
      invariant !invalid ==> FaultAt(faults0, i).None? && code == Candidate(sampler(i)) && code !in items0
      decreases bound + 1 - made
    {
      var found;
      code, found := Attempt(store, sampler, i, faults0, lookups0);
      made := i + 1;
      if found.LookupFailed? {
        invalid := false;
        return CodeFailed(found.message), i;
      } else if !HasData(found) {
        invalid := false;
      } else {
        assert !Settles(items0, faults0, sampler, i);
        assert AllTaken(items0, faults0, sampler, i + 1);
        i := i + 1;
      }
    }
    return CodeOk(Some(code)), i;
  }

  /**
   * One pass of the loop body: draw the candidate of attempt `i` and look
   * it up. A failed lookup reports the fault scripted for attempt `i`; a
   * lookup that succeeds has data exactly when the candidate is taken.
   */
  method Attempt(store: Store, sampler: nat -> Draw, i: nat, ghost faults0: seq<Option<string>>, ghost lookups0: seq<string>)
    returns (code: string, found: Lookup)
    requires store.Valid()
    requires store.faults == Drop(faults0, i) && store.lookups == lookups0 + Candidates(sampler, i)
    modifies store
    ensures code == Candidate(sampler(i))
    ensures store.Valid() && store.items == old(store.items) && store.writes == old(store.writes)
    ensures store.faults == Drop(faults0, i + 1) && store.lookups == lookups0 + Candidates(sampler, i + 1)
    ensures found.LookupFailed? <==> FaultAt(faults0, i).Some?
    ensures found.LookupFailed? ==> FaultAt(faults0, i) == Some(found.message)
    ensures HasData(found) <==> FaultAt(faults0, i).None? && code in store.items
  {
    code := Candidate(sampler(i));
    found := store.Get(code);
    DropStep(faults0, i);
    AppendAssoc(lookups0, Candidates(sampler, i), [code]);
  }

  // ---------------------------------------------------------------------
  // The record and the short link
  // ---------------------------------------------------------------------

  /** The `data` dict built by the handler and completed by `generateShortenerURL`. */
  datatype Draft = Draft(id: Option<string>, urlOriginal: string, urlEncurtada: Option<string>,
                         dataExclusao: int, ttl: Option<int>)

  function TextOrNull(s: Option<string>): Value {
    if s.Some? then Str(s.value) else Null
  }

  function NumberOrNull(n: Option<int>): Value {
    if n.Some? then Num(n.value) else Null
  }

  /** The dict as an item, attribute for attribute. */
  function ItemOf(d: Draft): Item {
    map["id" := TextOrNull(d.id),
        "urlOriginal" := Str(d.urlOriginal),
        "urlEncurtada" := TextOrNull(d.urlEncurtada),
        "dataExclusao" := Num(d.dataExclusao),
        "ttl" := NumberOrNull(d.ttl)]
  }

  /** `f"https://{APP_DOMAIN}/{code}"`. */
  function ShortUrl(domain: string, code: string): (url: string)
    ensures |url| == 9 + |domain| + |code|
    ensures url[..8] == "https://" && url[8..8 + |domain|] == domain
    ensures url[8 + |domain|] == '/' && url[9 + |domain|..] == code
  {
    "https://" + domain + "/" + code
  }

  /**
   * The item `generateShortenerURL` writes for `code`: the code as `id`, the
   * short URL, the caller's target, expiry and time-to-live as they were,
   * and no attribute whose value is "".
   */
  function WrittenItem(d: Draft, code: string, domain: string): (item: Item)
    ensures code != "" ==> KeyedBy(item, code)
  {
    Serialized(ItemOf(d.(id := Some(code), urlEncurtada := Some(ShortUrl(domain, code)))))
  }

  /**
   * Attribute by attribute, the written item holds the short URL, the
   * caller's target only when it is not "", the expiry and the
   * time-to-live, and nothing else besides the `id`.
   */
  lemma WrittenItemFields(d: Draft, code: string, domain: string)
    ensures var item := WrittenItem(d, code, domain);
            && "urlEncurtada" in item && item["urlEncurtada"] == Str(ShortUrl(domain, code))
            && ("urlOriginal" in item <==> d.urlOriginal != "")
            && ("urlOriginal" in item ==> item["urlOriginal"] == Str(d.urlOriginal))
            && "dataExclusao" in item && item["dataExclusao"] == Num(d.dataExclusao)
            && "ttl" in item && item["ttl"] == NumberOrNull(d.ttl)
            && item.Keys <= {"id", "urlOriginal", "urlEncurtada", "dataExclusao", "ttl"}
  {
  }

  /** The `validade` text: the formatted expiry without its last two characters, then ":00". */
  function Validade(formatted: string): (v: string)
    ensures |formatted| >= 2 ==> v == formatted[..|formatted| - 2] + ":00"
    ensures |formatted| < 2 ==> v == ":00"
  {
    (if |formatted| >= 2 then formatted[..|formatted| - 2] else "") + ":00"
  }

  /** With a "+HHMM" offset the slice keeps the hours of the offset and writes ":00" for its minutes. */
  lemma ValidadeWithOffset(stamp: string, offset: string)
    requires |offset| == 5
    ensures Validade(stamp + offset) == stamp + offset[..3] + ":00"
  {
    assert (stamp + offset)[..|stamp + offset| - 2] == stamp + offset[..3];
  }

  /**
   * With no offset, which is what `%z` gives for the naive datetime that
   * `datetime.fromtimestamp` returns, the slice cuts the seconds instead:
   * "YYYY-MM-DDTHH:MM:SS" becomes "YYYY-MM-DDTHH:MM::00".
   */
  lemma ValidadeWithoutOffset(stamp: string)
    requires |stamp| == 19 && stamp[16] == ':'
    ensures Validade(stamp) == stamp[..16] + "::00"
  {
    assert stamp[..17] == stamp[..16] + ":";
  }

  /** The answer of the handler: `{"success", "message", "data"?}`. */
  datatype Link = Link(code: string, urlEncurtada: string, urlOriginal: string, validade: string)
  datatype Answer = Answer(success: bool, message: string, data: Option<Link>)

  const AliasInUseMessage := "Alias informado já está sendo utilizado para outro endereço."
  const MissingUrlMessage := "Campo URL não foi informado."
  const GenerationFailedPrefix := "Falha ao gerar o código: "
  const WriteFailedPrefix := "Falha ao gravar na tabela "

  /** How one creation ended, as the table saw it. */
  datatype Creation = GenerationFailed(message: string) | AliasTaken | WriteFailed(code: string, message: string) | Created(code: string)

  /** The answer `generateShortenerURL` gives for each way a creation can end. */
  function AnswerOf(outcome: Creation, data: Draft, domain: string, format: int -> string): Answer {
    match outcome
    case GenerationFailed(m) => Answer(false, GenerationFailedPrefix + m, None)
    case AliasTaken => Answer(false, AliasInUseMessage, None)
    case WriteFailed(_, m) => Answer(false, WriteFailedPrefix + m, None)
    case Created(c) => Answer(true, "Ok", Some(Link(c, ShortUrl(domain, c), data.urlOriginal,
                                                   Validade(format(data.dataExclusao)))))
  }

  /** On success the link handed back repeats the record that was written, field for field. */
  lemma LinkMatchesRecord(d: Draft, code: string, domain: string, format: int -> string)
    requires code != ""
    ensures var link := AnswerOf(Created(code), d, domain, format).data.value;
            var item := WrittenItem(d, code, domain);
            && "id" in item && item["id"] == Str(link.code)
            && "urlEncurtada" in item && item["urlEncurtada"] == Str(link.urlEncurtada)
            && (d.urlOriginal != "" ==> "urlOriginal" in item && item["urlOriginal"] == Str(link.urlOriginal))
            && (d.urlOriginal == "" ==> link.urlOriginal == "" && "urlOriginal" !in item)
  {
    WrittenItemFields(d, code, domain);
  }

  /** The table's items after a creation: only a successful write changes them. */
  function Stored(items: map<string, Item>, outcome: Creation, data: Draft, domain: string): map<string, Item> {
    if outcome.Created? then items[outcome.code := WrittenItem(data, outcome.code, domain)] else items
  }

  /** The writes a creation attempts: one, of the completed record, once a code is settled. */
  function Written(outcome: Creation, data: Draft, domain: string): seq<Item> {
    if outcome.WriteFailed? || outcome.Created? then [WrittenItem(data, outcome.code, domain)]
    else []
  }

  /** The write of the record for `code`, made as call `n` of the script. */
  function WriteOutcome(faults: seq<Option<string>>, n: nat, code: string): Creation {
    match FaultAt(faults, n)
    case Some(m) => WriteFailed(code, m)
    case None => Created(code)
  }

  /**
   * How `generateShortenerURL` ends on the table `items` with the fault
   * script `faults`. A truthy alias costs one lookup: it fails, finds the
   * alias taken, or goes on to the write as call 1. Otherwise `attempts`
   * candidates are turned down first (see `FirstSettles`); the next lookup
   * fails, or its candidate is written as call `attempts + 1`.
   */
  function CreationOutcome(items: map<string, Item>, faults: seq<Option<string>>, sampler: nat -> Draw,
                           alias: Option<string>, attempts: nat): Creation {
    match CodeOutcome(items, faults, sampler, alias, attempts)
    case CodeFailed(m) => GenerationFailed(m)
    case CodeOk(code) =>
      if !TruthyText(code) then AliasTaken
      else WriteOutcome(faults, |LookedUp(sampler, alias, attempts)|, code.value)
  }

  /**
   * What each outcome means for the table it was computed on: a generation
   * failure carries a scripted message, an alias is turned down only when
   * it is present, and a code that is written was free and is the alias or
   * a generated code.
   */
  lemma OutcomeMeaning(items: map<string, Item>, faults: seq<Option<string>>, sampler: nat -> Draw,
                       alias: Option<string>, attempts: nat)
    requires TruthyText(alias) ==> attempts == 0
    requires !TruthyText(alias) ==> FirstSettles(items, faults, sampler, attempts)
    ensures var o := CreationOutcome(items, faults, sampler, alias, attempts);
            && (o.GenerationFailed? ==> Some(o.message) in faults)
            && (o.AliasTaken? <==> TruthyText(alias) && FaultAt(faults, 0).None? && alias.value in items)
            && (o.WriteFailed? ==> Some(o.message) in faults)
            && (o.WriteFailed? || o.Created? ==>
                  && o.code != "" && o.code !in items
                  && (TruthyText(alias) ==> o.code == alias.value)
                  && (!TruthyText(alias) ==> IsGeneratedCode(o.code)))
  {
    CodeOutcomeMeaning(items, faults, sampler, alias, attempts);
  }

  /**
   * `generateShortenerURL(data)`: settle on a code, then write the one item.
   * `format` is the local-time `strftime('%Y-%m-%dT%H:%M:%S%z')` of an epoch.
   */
  method GenerateShortenerURL(store: Store, data: Draft, domain: string, sampler: nat -> Draw, format: int -> string)
    returns (reply: Answer, ghost outcome: Creation, ghost attempts: nat)
    requires store.Valid()
    requires !TruthyText(data.id) ==> exists n: nat :: Settles(store.items, store.faults, sampler, n)
    modifies store
    ensures store.Valid()
    ensures TruthyText(data.id) ==> attempts == 0
    ensures !TruthyText(data.id) ==> FirstSettles(old(store.items), old(store.faults), sampler, attempts)
    ensures outcome == CreationOutcome(old(store.items), old(store.faults), sampler, data.id, attempts)
    ensures reply == AnswerOf(outcome, data, domain, format)
    ensures store.items == Stored(old(store.items), outcome, data, domain)
    ensures store.lookups == old(store.lookups) + LookedUp(sampler, data.id, attempts)
    ensures store.writes == old(store.writes) + Written(outcome, data, domain)
    ensures store.faults == Drop(old(store.faults), |LookedUp(sampler, data.id, attempts)| + |Written(outcome, data, domain)|)
  {
    var code;
    code, attempts := GenerateCode(store, data.id, sampler);
    if code.CodeFailed? {
      return Answer(false, GenerationFailedPrefix + code.message, None), GenerationFailed(code.message), attempts;
    }
    if !TruthyText(code.code) {
      return Answer(false, AliasInUseMessage, None), AliasTaken, attempts;
    }
    var id := code.code.value;
    reply, outcome := Save(store, data, id, domain, format);
    DropStep(old(store.faults), |LookedUp(sampler, data.id, attempts)|);
  }

  /**
   * The second half of `generateShortenerURL`: complete the record with the
   * code and the short URL, write it, and answer with the link or with the
   * write failure.
   */
  method Save(store: Store, data: Draft, id: string, domain: string, format: int -> string)
    returns (reply: Answer, ghost outcome: Creation)
    requires store.Valid() && id != ""
    modifies store
    ensures store.Valid()
    ensures store.lookups == old(store.lookups) && store.writes == old(store.writes) + [WrittenItem(data, id, domain)]
    ensures store.faults == Drop(old(store.faults), 1)
    ensures outcome == match NextFault(old(store.faults))
                       case Some(m) => WriteFailed(id, m)
                       case None => Created(id)
    ensures outcome.WriteFailed? ==>
              reply == Answer(false, WriteFailedPrefix + outcome.message, None) && store.items == old(store.items)
    ensures outcome.Created? ==>
              && reply == Answer(true, "Ok", Some(Link(id, ShortUrl(domain, id), data.urlOriginal,
                                                      Validade(format(data.dataExclusao)))))
              && store.items == old(store.items)[id := WrittenItem(data, id, domain)]
  {
    var completed := data.(id := Some(id), urlEncurtada := Some(ShortUrl(domain, id)));
    var item := Serialized(ItemOf(completed));
    assert item == WrittenItem(data, id, domain);
    var failure := store.Put(item);
    if failure.None? {
      reply := Answer(true, "Ok", Some(Link(completed.id.value, completed.urlEncurtada.value,
                                           completed.urlOriginal, Validade(format(completed.dataExclusao)))));
      outcome := Created(id);
    } else {
      reply := Answer(false, WriteFailedPrefix + failure.value, None);
      outcome := WriteFailed(id, failure.value);
    }
  }

  // ---------------------------------------------------------------------
  // lambda_handler
  // ---------------------------------------------------------------------

  /** The invocation event: `url` (missing or None are both absent), `alias`, `ttl`. */
  datatype Event = Event(url: Option<string>, alias: Option<string>, ttl: Option<int>)

  /** The `data` dict the handler builds from an event that names a URL. */
  function Normalise(event: Event, now: int): (d: Draft)
    requires event.url.Some?
    ensures d.id == (if TruthyText(event.alias) then event.alias else None)
    ensures d.urlOriginal == event.url.value && d.urlEncurtada.None?
    ensures d.ttl == (if TruthyInt(event.ttl) then event.ttl else None)
    ensures d.dataExclusao == now + (if TruthyInt(event.ttl) then event.ttl.value else DefaultSeconds)
  {
    Draft(if TruthyText(event.alias) then event.alias else None,
          event.url.value,
          None,
          if TruthyInt(event.ttl) then Sec2Epoch(event.ttl, now) else Sec2Epoch(None, now),
          if TruthyInt(event.ttl) then event.ttl else None)
  }

  /** A falsy alias or ttl ("" or 0) is the same as leaving it out. */
  lemma FalsyFieldsIgnored(url: string, now: int)
    ensures Normalise(Event(Some(url), Some(""), None), now) == Normalise(Event(Some(url), None, None), now)
    ensures Normalise(Event(Some(url), None, Some(0)), now) == Normalise(Event(Some(url), None, None), now)
    ensures Normalise(Event(Some(url), None, None), now).dataExclusao == now + DefaultSeconds
  {
  }

  /**
   * `lambda_handler(event, context)` at the instant `now`. An event without
   * a URL is turned down before the table is touched; otherwise the outcome
   * is the creation's on the table as it was.
   */
  method HandleEvent(store: Store, event: Event, now: int, domain: string, sampler: nat -> Draw, format: int -> string)
    returns (reply: Answer, ghost outcome: Option<Creation>, ghost attempts: nat)
    requires store.Valid()
    requires event.url.Some? && !TruthyText(event.alias) ==>
               exists n: nat :: Settles(store.items, store.faults, sampler, n)
    modifies store
    ensures store.Valid()
    ensures event.url.None? ==>
              && reply == Answer(false, MissingUrlMessage, None) && outcome.None?
              && store.items == old(store.items) && store.faults == old(store.faults)
              && store.lookups == old(store.lookups) && store.writes == old(store.writes)
    ensures event.url.Some? ==>
              var data := Normalise(event, now);
              && (TruthyText(event.alias) ==> attempts == 0)
              && (!TruthyText(event.alias) ==> FirstSettles(old(store.items), old(store.faults), sampler, attempts))
              && outcome == Some(CreationOutcome(old(store.items), old(store.faults), sampler, data.id, attempts))
              && reply == AnswerOf(outcome.value, data, domain, format)
              && store.items == Stored(old(store.items), outcome.value, data, domain)
              && store.lookups == old(store.lookups) + LookedUp(sampler, data.id, attempts)
              && store.writes == old(store.writes) + Written(outcome.value, data, domain)
              && store.faults == Drop(old(store.faults), |LookedUp(sampler, data.id, attempts)| + |Written(outcome.value, data, domain)|)
  {
    attempts := 0;
    if event.url.Some? {
      var data := Normalise(event, now);
      ghost var creation;
      reply, creation, attempts := GenerateShortenerURL(store, data, domain, sampler, format);
      outcome := Some(creation);
    } else {
      reply := Answer(false, MissingUrlMessage, None);
      outcome := None;
    }
  }

  // ---------------------------------------------------------------------
  // Whole creations
  // ---------------------------------------------------------------------

  /**
   * Two creations with the same alias on a table that does not hold it and
   * meets no fault: the first writes the alias's record, the second is
   * turned down as "alias in use" and writes nothing.
   */
  method AliasTwice(store: Store, alias: string, first: string, second: string,
                    now: int, domain: string, sampler: nat -> Draw, format: int -> string)
    returns (a: Answer, b: Answer)
    requires store.Valid() && store.faults == []
    requires alias != "" && alias !in store.items
    modifies store
    ensures a.success && a.data.Some? && a.data.value.code == alias && a.data.value.urlOriginal == first
    ensures b == Answer(false, AliasInUseMessage, None)
    ensures store.items == old(store.items)[alias := WrittenItem(Normalise(Event(Some(first), Some(alias), None), now), alias, domain)]
    ensures store.writes == old(store.writes) + [WrittenItem(Normalise(Event(Some(first), Some(alias), None), now), alias, domain)]
  {
    ghost var outcome, attempts;
    a, outcome, attempts := HandleEvent(store, Event(Some(first), Some(alias), None), now, domain, sampler, format);
    b, outcome, attempts := HandleEvent(store, Event(Some(second), Some(alias), None), now, domain, sampler, format);
  }

  /**
   * On a table that meets no fault, a creation without an alias always
   * succeeds once some draw is free: it writes the record under the first
   * free candidate, a generated code.
   */
  method HealthyDrawSucceeds(store: Store, url: string, now: int, domain: string, sampler: nat -> Draw, format: int -> string)
    returns (reply: Answer)
    requires store.Valid() && store.faults == []
    requires exists n: nat :: Candidate(sampler(n)) !in store.items
    modifies store
    ensures reply.success && reply.data.Some?
    ensures var code := reply.data.value.code;
            && IsGeneratedCode(code) && code !in old(store.items)
            && store.items == old(store.items)[code := WrittenItem(Normalise(Event(Some(url), None, None), now), code, domain)]
  {
    ghost var n: nat :| Candidate(sampler(n)) !in store.items;
    assert Settles(store.items, store.faults, sampler, n);
    ghost var items0 := store.items;
    ghost var outcome, attempts;
    reply, outcome, attempts := HandleEvent(store, Event(Some(url), None, None), now, domain, sampler, format);
    OutcomeMeaning(items0, [], sampler, None, attempts);
  }
}
