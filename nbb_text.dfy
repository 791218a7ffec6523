/**
 * The textual messages of Non-blocking-Buffers/nbb.c: the requests a
 * service and a client send to the nameserver, the handshake a client
 * sends to the service it connects to, and the parsing of the replies and
 * of the handshake with `strtok(…, " ")` and `atoi`. C strings are byte
 * sequences without their terminating NUL.
 */
module NbbText {
  import opened NbbTypes

  const NUL: byte := 0
  const SPACE: byte := 32
  const PLUS: byte := 43
  const MINUS: byte := 45
  const DIGIT_ZERO: byte := 48

  /** `NEW_CONN_NOTIFY_MSG`, the text `**Q_Q**`, without its NUL. */
  const HANDSHAKE_TAG: seq<byte> := [42, 42, 81, 95, 81, 42, 42]

  /** Room for the decimal text of a pid, NUL excluded (`PID_MAX_STRLEN`). */
  const PID_MAX_STRLEN: nat := 5

  /** Room for the decimal text of a channel count, NUL included (`CHANNEL_MAX_STRLEN`). */
  const CHANNEL_MAX_STRLEN: nat := 5

  /** A C string: no NUL inside. */
  predicate IsCString(s: seq<byte>)
  {
    forall k :: 0 <= k < |s| ==> s[k] != NUL
  }

  /** A token `strtok(…, " ")` can return: non-empty, no space, no NUL. */
  predicate IsWord(w: seq<byte>)
  {
    |w| > 0 && forall k :: 0 <= k < |w| ==> w[k] != SPACE && w[k] != NUL
  }

  /** The C string stored at the start of a byte buffer: everything before the first NUL. */
  function CStr(s: seq<byte>): (r: seq<byte>)
    ensures IsCString(r)
    ensures |r| <= |s| && r == s[..|r|]
    ensures |r| < |s| ==> s[|r|] == NUL
  {
    if s == [] || s[0] == NUL then [] else [s[0]] + CStr(s[1..])
  }

  /** The longest prefix without a space. */
  function Word(s: seq<byte>): (w: seq<byte>)
    ensures |w| <= |s| && w == s[..|w|]
    ensures forall k :: 0 <= k < |w| ==> w[k] != SPACE
    ensures |w| < |s| ==> s[|w|] == SPACE
  {
    if s == [] || s[0] == SPACE then [] else [s[0]] + Word(s[1..])
  }

  /** The tokens successive `strtok(…, " ")` calls return: the maximal runs of non-space bytes. */
  function Tokens(s: seq<byte>): (r: seq<seq<byte>>)
    ensures forall i :: 0 <= i < |r| ==> |r[i]| > 0
    ensures forall i, k :: 0 <= i < |r| && 0 <= k < |r[i]| ==> r[i][k] != SPACE
    ensures s != [] && (forall k :: 0 <= k < |s| ==> s[k] != SPACE) ==> r == [s]
    ensures (forall k :: 0 <= k < |s| ==> s[k] == SPACE) ==> r == []
    decreases |s|
  {
    if s == [] then []
    else if s[0] == SPACE then Tokens(s[1..])
    else
      var w := Word(s);
      assert (forall k :: 0 <= k < |s| ==> s[k] != SPACE) ==> w == s && s[|w|..] == [];
      [w] + Tokens(s[|w|..])
  }

  /** Tokens joined by single spaces, as the `strcat(…, " ")` sequences build them. */
  function Join(ts: seq<seq<byte>>): seq<byte>
  {
    if ts == [] then [] else if |ts| == 1 then ts[0] else ts[0] + [SPACE] + Join(ts[1..])
  }

  predicate IsDigit(b: byte)
  {
    DIGIT_ZERO <= b <= DIGIT_ZERO + 9
  }

  /** The white space `atoi` skips: tab, line feed, vertical tab, form feed, carriage return, space. */
  predicate IsCSpace(b: byte)
  {
    9 <= b <= 13 || b == SPACE
  }

  /** What is left after the leading white space `atoi` skips. */
  function SkipSpace(s: seq<byte>): (r: seq<byte>)
    ensures r == [] || !IsCSpace(r[0])
    ensures |r| <= |s| && r == s[|s| - |r|..]
    ensures forall k :: 0 <= k < |s| - |r| ==> IsCSpace(s[k])
  {
    if s != [] && IsCSpace(s[0]) then SkipSpace(s[1..]) else s
  }

  /** The longest prefix of decimal digits. */
  function LeadingDigits(s: seq<byte>): (r: seq<byte>)
    ensures |r| <= |s| && r == s[..|r|]
    ensures forall k :: 0 <= k < |r| ==> IsDigit(r[k])
    ensures |r| < |s| ==> !IsDigit(s[|r|])
  {
    if s != [] && IsDigit(s[0]) then [s[0]] + LeadingDigits(s[1..]) else []
  }

  /** The value of a run of decimal digits. */
  function DigitsValue(ds: seq<byte>): nat
    requires forall k :: 0 <= k < |ds| ==> IsDigit(ds[k])
  {
    if ds == [] then 0
    else
      var d := ds[|ds| - 1];
      assert IsDigit(d);
      DigitsValue(ds[..|ds| - 1]) * 10 + (d - DIGIT_ZERO) as nat
  }

  /** `atoi`: optional white space, an optional sign, then the leading digits (overflow is not modelled). */
  function Atoi(s: seq<byte>): (r: int)
    ensures (forall k :: 0 <= k < |s| ==> IsDigit(s[k])) ==> r == DigitsValue(s)
    ensures r < 0 ==> SkipSpace(s) != [] && SkipSpace(s)[0] == MINUS
    ensures SkipSpace(s) != [] && SkipSpace(s)[0] == MINUS ==> r == -(DigitsValue(LeadingDigits(SkipSpace(s)[1..])) as int)
    ensures SkipSpace(s) != [] && SkipSpace(s)[0] == PLUS ==> r == DigitsValue(LeadingDigits(SkipSpace(s)[1..]))
    ensures SkipSpace(s) == [] || (SkipSpace(s)[0] != MINUS && SkipSpace(s)[0] != PLUS) ==> r == DigitsValue(LeadingDigits(SkipSpace(s)))
    ensures SkipSpace(s) == [] || (SkipSpace(s)[0] != MINUS && SkipSpace(s)[0] != PLUS && !IsDigit(SkipSpace(s)[0])) ==> r == 0
  {
    AllDigitsUntouched(s);
    Signed(SkipSpace(s))
  }

  /** The optional sign and the leading digits of the text after the white space. */
  function Signed(t: seq<byte>): (r: int)
    ensures (forall k :: 0 <= k < |t| ==> IsDigit(t[k])) ==> r == DigitsValue(t)
    ensures r < 0 ==> t != [] && t[0] == MINUS
    ensures t != [] && t[0] == MINUS ==> r == -(DigitsValue(LeadingDigits(t[1..])) as int)
    ensures t != [] && t[0] == PLUS ==> r == DigitsValue(LeadingDigits(t[1..]))
    ensures t == [] || (t[0] != MINUS && t[0] != PLUS) ==> r == DigitsValue(LeadingDigits(t))
    ensures t == [] || (t[0] != MINUS && t[0] != PLUS && !IsDigit(t[0])) ==> r == 0
  {
    AllDigitsUntouched(t);
    if t != [] && t[0] == MINUS then -(DigitsValue(LeadingDigits(t[1..])) as int)
    else if t != [] && t[0] == PLUS then DigitsValue(LeadingDigits(t[1..]))
    else DigitsValue(LeadingDigits(t))
  }

  /** A run of digits has no white space to skip and is its own leading digits. */
  lemma AllDigitsUntouched(s: seq<byte>)
    ensures (forall k :: 0 <= k < |s| ==> IsDigit(s[k])) ==> SkipSpace(s) == s && LeadingDigits(s) == s
  {
  }

  /** `sprintf(…, "%d", n)` for the non-negative values the library prints. */
  function Itoa(n: nat): (r: seq<byte>)
    ensures |r| > 0
    ensures forall k :: 0 <= k < |r| ==> IsDigit(r[k])
  {
    if n < 10 then [DIGIT_ZERO + n as byte] else Itoa(n / 10) + [DIGIT_ZERO + (n % 10) as byte]
  }

  /** The decimal text of a number reads back as that number. */
  lemma {:induction false} DigitsValueItoa(n: nat)
    ensures DigitsValue(Itoa(n)) == n
  {
    if n >= 10 {
      DigitsValueItoa(n / 10);
      var r := Itoa(n);
      assert r[..|r| - 1] == Itoa(n / 10);
    }
  }

  lemma {:induction false} LeadingDigitsAll(s: seq<byte>)
    requires forall k :: 0 <= k < |s| ==> IsDigit(s[k])
    ensures LeadingDigits(s) == s
    decreases |s|
  {
    if s != [] {
      LeadingDigitsAll(s[1..]);
    }
  }

  /** `atoi` inverts `sprintf("%d")` on the values the library prints. */
  lemma AtoiItoa(n: nat)
    ensures Atoi(Itoa(n)) == n
  {
    var r := Itoa(n);
    assert SkipSpace(r) == r;
    LeadingDigitsAll(r);
    DigitsValueItoa(n);
  }

  /** The decimal text of a number is a token. */
  lemma ItoaIsWord(n: nat)
    ensures IsWord(Itoa(n))
  {
  }

  /** A word followed by a space and more text: its first token is the word. */
  lemma {:induction false} WordOfWord(w: seq<byte>, rest: seq<byte>)
    requires forall k :: 0 <= k < |w| ==> w[k] != SPACE
    requires rest == [] || rest[0] == SPACE
    ensures Word(w + rest) == w
    decreases |w|
  {
    if w != [] {
      assert (w + rest)[1..] == w[1..] + rest;
      WordOfWord(w[1..], rest);
    }
  }

  /** Tokenising a word, a space and more text gives the word, then the tokens of the text. */
  lemma TokensCons(w: seq<byte>, rest: seq<byte>)
    requires IsWord(w)
    ensures Tokens(w + [SPACE] + rest) == [w] + Tokens(rest)
  {
    var s := w + [SPACE] + rest;
    WordOfWord(w, [SPACE] + rest);
    assert s == w + ([SPACE] + rest);
    assert s[|w|..] == [SPACE] + rest;
    assert ([SPACE] + rest)[1..] == rest;
  }

  lemma {:induction false} TokensOfWord(w: seq<byte>)
    requires IsWord(w)
    ensures Tokens(w) == [w]
  {
    WordOfWord(w, []);
    assert w + [] == w;
  }

  lemma JoinCons(w: seq<byte>, ts: seq<seq<byte>>)
    requires ts != []
    ensures Join([w] + ts) == w + [SPACE] + Join(ts)
  {
    assert ([w] + ts)[1..] == ts;
  }

  /** Words joined by single spaces tokenise back into the same words. */
  lemma {:induction false} TokensJoin(ts: seq<seq<byte>>)
    requires forall i :: 0 <= i < |ts| ==> IsWord(ts[i])
    ensures Tokens(Join(ts)) == ts
    decreases |ts|
  {
    if |ts| == 1 {
      TokensOfWord(ts[0]);
    } else if |ts| > 1 {
      TokensJoin(ts[1..]);
      TokensCons(ts[0], Join(ts[1..]));
    }
  }

  /**
   * The request `nbb_init_service` sends: the service tag, the service
   * name, the number of channels wanted and the pid, separated by spaces.
   * The two numbers are printed into fixed arrays of `CHANNEL_MAX_STRLEN`
   * and `PID_MAX_STRLEN + 1` bytes, NUL included.
   */
  function ServiceRequest(tag: seq<byte>, name: seq<byte>, numChannels: nat, pid: nat): (r: seq<byte>)
    requires numChannels > 0
    requires |Itoa(numChannels)| + 1 <= CHANNEL_MAX_STRLEN
    requires |Itoa(pid)| <= PID_MAX_STRLEN
    ensures IsWord(tag) && IsWord(name) ==>
              Tokens(r) == [tag, name, Itoa(numChannels), Itoa(pid)]
              && Atoi(Tokens(r)[2]) == numChannels && Atoi(Tokens(r)[3]) == pid
  {
    var r := tag + [SPACE] + name + [SPACE] + Itoa(numChannels) + [SPACE] + Itoa(pid);
    if IsWord(tag) && IsWord(name) then
      JoinCons(Itoa(numChannels), [Itoa(pid)]);
      JoinCons(name, [Itoa(numChannels), Itoa(pid)]);
      JoinCons(tag, [name, Itoa(numChannels), Itoa(pid)]);
      assert r == Join([tag, name, Itoa(numChannels), Itoa(pid)]);
      TokensJoin([tag, name, Itoa(numChannels), Itoa(pid)]);
      AtoiItoa(numChannels);
      AtoiItoa(pid);
      r
    else r
  }

  /** The request `nbb_connect_service` sends: the client tag and the service name. */
  function ClientRequest(tag: seq<byte>, service: seq<byte>): (r: seq<byte>)
    ensures IsWord(tag) && IsWord(service) ==> Tokens(r) == [tag, service]
  {
    var r := tag + [SPACE] + service;
    if IsWord(tag) && IsWord(service) then
      JoinCons(tag, [service]);
      assert r == Join([tag, service]);
      TokensJoin([tag, service]);
      r
    else r
  }

  /** The handshake a client sends after connecting: the tag, its pid and its name. */
  function Handshake(pid: nat, name: seq<byte>): (h: seq<byte>)
    requires |Itoa(pid)| <= PID_MAX_STRLEN
    ensures |h| > |HANDSHAKE_TAG|
    ensures h[..|HANDSHAKE_TAG|] == HANDSHAKE_TAG
    ensures h[|HANDSHAKE_TAG|] == SPACE
  {
    HANDSHAKE_TAG + [SPACE] + Itoa(pid) + [SPACE] + name
  }

  /** Outcomes of parsing a handshake in the drain; all but `Named` fail an assertion or dereference NULL. */
  datatype HandshakeParse =
    | NoPid                   // no second token: `atoi(NULL)`
    | NoName(pid: int)        // no third token: `strlen(NULL)`, after the pid is stored
    | NameTooLong(pid: int)   // the name does not fit `MAX_NAME_SIZE`, after the pid is stored
    | Named(pid: int, name: seq<byte>)

  /** What the drain takes from a handshake text: the second token as pid, the third as name. */
  function ParseHandshake(text: seq<byte>): (r: HandshakeParse)
    ensures r.NoPid? <==> |Tokens(text)| < 2
    ensures !r.NoPid? ==> r.pid == Atoi(Tokens(text)[1])
    ensures r.NoName? <==> |Tokens(text)| == 2
    ensures |Tokens(text)| >= 3 ==> (r.Named? <==> NameFits(Tokens(text)[2]))
    ensures r.Named? ==> r.name == Tokens(text)[2] && NameFits(r.name)
  {
    var ts := Tokens(text);
    if |ts| < 2 then NoPid
    else if |ts| < 3 then NoName(Atoi(ts[1]))
    else if !NameFits(ts[2]) then NameTooLong(Atoi(ts[1]))
    else Named(Atoi(ts[1]), ts[2])
  }

  /** A handshake built by a client parses back to its pid and name at the service. */
  lemma HandshakeRoundTrip(pid: nat, name: seq<byte>)
    requires |Itoa(pid)| <= PID_MAX_STRLEN
    requires IsWord(name) && NameFits(name)
    ensures ParseHandshake(Handshake(pid, name)) == Named(pid, name)
  {
    JoinCons(Itoa(pid), [name]);
    JoinCons(HANDSHAKE_TAG, [Itoa(pid), name]);
    assert Handshake(pid, name) == Join([HANDSHAKE_TAG, Itoa(pid), name]);
    TokensJoin([HANDSHAKE_TAG, Itoa(pid), name]);
    AtoiItoa(pid);
  }

  /** A client name with spaces arrives cut at its first space. */
  lemma HandshakeKeepsFirstWord(pid: nat, first: seq<byte>, rest: seq<byte>)
    requires |Itoa(pid)| <= PID_MAX_STRLEN
    requires IsWord(first) && NameFits(first)
    ensures ParseHandshake(Handshake(pid, first + [SPACE] + rest)) == Named(pid, first)
  {
    HandshakeTokens(pid, first, rest);
    AtoiItoa(pid);
    hide Handshake, Tokens, Atoi, Itoa;
    var ts := [HANDSHAKE_TAG] + ([Itoa(pid)] + ([first] + Tokens(rest)));
    assert ts[1] == Itoa(pid) && ts[2] == first && |ts| >= 3;
  }

  /** The tokens of a handshake whose name has a space: the tag, the pid, the first word, then the rest's. */
  lemma HandshakeTokens(pid: nat, first: seq<byte>, rest: seq<byte>)
    requires |Itoa(pid)| <= PID_MAX_STRLEN
    requires IsWord(first)
    ensures Tokens(Handshake(pid, first + [SPACE] + rest)) == [HANDSHAKE_TAG] + ([Itoa(pid)] + ([first] + Tokens(rest)))
  {
    var y := first + [SPACE] + rest;
    var x := Itoa(pid) + [SPACE] + y;
    assert Handshake(pid, y) == HANDSHAKE_TAG + [SPACE] + x;
    TokensCons(HANDSHAKE_TAG, x);
    TokensCons(Itoa(pid), y);
    TokensCons(first, rest);
  }

  /**
   * The write-count test of `nbb_insert_item` compares the 8 bytes of the
   * tag with its NUL against the item, the byte after the item being the
   * terminator of the string the caller passed: only the bare tag is
   * excluded from the count.
   */
  function ExcludedFromWriteCount(item: seq<byte>): (r: bool)
    ensures r <==>
              && |item| >= |HANDSHAKE_TAG| && item[..|HANDSHAKE_TAG|] == HANDSHAKE_TAG
              && (|item| == |HANDSHAKE_TAG| || item[|HANDSHAKE_TAG|] == NUL)
  {
    if |item| >= |HANDSHAKE_TAG| then
      var e := (item + [NUL])[..|HANDSHAKE_TAG| + 1];
      assert e == e[..|HANDSHAKE_TAG|] + [e[|HANDSHAKE_TAG|]];
      assert e[..|HANDSHAKE_TAG|] == item[..|HANDSHAKE_TAG|];
      e == HANDSHAKE_TAG + [NUL]
    else false
  }

  /** Only the bare tag is excluded: a C-string item is excluded exactly when it is the tag. */
  lemma ExcludedIsBareTag(item: seq<byte>)
    requires IsCString(item)
    ensures ExcludedFromWriteCount(item) <==> item == HANDSHAKE_TAG
  {
    if ExcludedFromWriteCount(item) {
      var e := (item + [NUL])[..|HANDSHAKE_TAG| + 1];
      assert e[|HANDSHAKE_TAG|] == NUL;
      assert e[|HANDSHAKE_TAG|] == (item + [NUL])[|HANDSHAKE_TAG|];
      assert |item| == |HANDSHAKE_TAG|;
      assert item == (item + [NUL])[..|HANDSHAKE_TAG|];
    }
  }

  /**
   * A handshake the drain recognises (its first 7 bytes are the tag) is
   * not excluded by the 8-byte comparison, so it is counted as written data.
   */
  lemma HandshakeCountedAsWritten(pid: nat, name: seq<byte>)
    requires |Itoa(pid)| <= PID_MAX_STRLEN
    ensures Handshake(pid, name)[..|HANDSHAKE_TAG|] == HANDSHAKE_TAG
    ensures !ExcludedFromWriteCount(Handshake(pid, name))
  {
    var h := Handshake(pid, name);
    assert (h + [NUL])[|HANDSHAKE_TAG|] == SPACE;
  }

  /** A pair of shared-memory ids: the one read from and the one written to. */
  datatype IdPair = IdPair(readId: int, writeId: int)

  /** Outcome of the reservation reply `nbb_init_service` receives. */
  datatype Reservation =
    | ChannelFull
    /**
     * The pairs opened in order; `complete` is false when the reply had
     * fewer ids than channels asked for, and the next `atoi(NULL)` fails.
     */
    | Reserved(pairs: seq<IdPair>, complete: bool)

  /**
   * The service reads one channel id per channel asked for and opens it as
   * `(id, id + conv)`: it reads on `id` and writes on `id + conv`.
   */
  function ParseReservation(reply: seq<byte>, full: seq<byte>, numChannels: nat, conv: int): (r: Reservation)
    ensures r.ChannelFull? <==> reply == full
    ensures r.Reserved? ==>
              var ts := Tokens(reply);
              && |r.pairs| == (if numChannels <= |ts| then numChannels else |ts|)
              && (r.complete <==> numChannels <= |ts|)
              && forall i :: 0 <= i < |r.pairs| ==> r.pairs[i] == IdPair(Atoi(ts[i]), Atoi(ts[i]) + conv)
  {
    if reply == full then ChannelFull
    else
      var ts := Tokens(reply);
      var n := if numChannels <= |ts| then numChannels else |ts|;
      Reserved(seq(n, i requires 0 <= i < n => IdPair(Atoi(ts[i]), Atoi(ts[i]) + conv)), numChannels <= |ts|)
  }

  /** Outcome of the lookup reply `nbb_connect_service` receives. */
  datatype Lookup =
    | NoReply            // the reply pointer is NULL
    | UnknownService
    | ServiceBusy
    | MissingField       // fewer than two tokens: `atoi(NULL)`
    | Connect(ids: IdPair, servicePid: int)

  /**
   * The client reads the channel id and the service pid, and opens the
   * channel the other way round: it reads on `id + conv` and writes on `id`.
   */
  function ParseLookup(reply: Option<seq<byte>>, unknown: seq<byte>, busy: seq<byte>, conv: int): (r: Lookup)
    ensures r.NoReply? <==> reply.None?
    ensures reply == Some(unknown) ==> r == UnknownService
    ensures reply.Some? && reply.value != unknown && reply.value == busy ==> r == ServiceBusy
    ensures reply.Some? && reply.value != unknown && reply.value != busy ==>
              && (r.Connect? <==> |Tokens(reply.value)| >= 2)
              && (!r.Connect? ==> r == MissingField)
    ensures r.Connect? ==>
              && reply.Some? && reply.value != unknown && reply.value != busy
              && |Tokens(reply.value)| >= 2
              && r.ids == IdPair(Atoi(Tokens(reply.value)[0]) + conv, Atoi(Tokens(reply.value)[0]))
              && r.servicePid == Atoi(Tokens(reply.value)[1])
  {
    match reply
    case None => NoReply
    case Some(text) =>
      if text == unknown then UnknownService
      else if text == busy then ServiceBusy
      else
        var ts := Tokens(text);
        if |ts| < 2 then MissingField
        else Connect(IdPair(Atoi(ts[0]) + conv, Atoi(ts[0])), Atoi(ts[1]))
  }

  /**
   * When the nameserver hands a client one of the ids it reserved for a
   * service, the two ends are complementary: the client writes where the
   * service reads and reads where the service writes.
   */
  lemma ComplementaryIds(
    reservation: seq<byte>, full: seq<byte>, numChannels: nat,
    lookup: seq<byte>, unknown: seq<byte>, busy: seq<byte>, conv: int, i: nat)
    requires ParseReservation(reservation, full, numChannels, conv).Reserved?
    requires i < |ParseReservation(reservation, full, numChannels, conv).pairs|
    requires ParseLookup(Some(lookup), unknown, busy, conv).Connect?
    requires Tokens(lookup)[0] == Tokens(reservation)[i]
    ensures var service := ParseReservation(reservation, full, numChannels, conv).pairs[i];
            var client := ParseLookup(Some(lookup), unknown, busy, conv).ids;
            client.writeId == service.readId && client.readId == service.writeId
  {
  }
}
