/** Resumable download of one runtime artifact: range validation, part file, verified promotion. */
module Download {
  import opened Domain
  import opened Progress

  // ---------------------------------------------------------------- Content-Range

  /** Split at the first occurrence of `c`. */
  function SplitOnce(s: string, c: char): (r: Option<(string, string)>)
    ensures r.Some? ==> s == r.value.0 + [c] + r.value.1 && c !in r.value.0
    ensures r.None? ==> c !in s
  {
    if s == [] then None
    else if s[0] == c then
      assert s == [] + [c] + s[1..];
      Some(([], s[1..]))
    else
      var rest := SplitOnce(s[1..], c);
      assert s == [s[0]] + s[1..];
      if rest.None? then None else Some(([s[0]] + rest.value.0, rest.value.1))
  }

  predicate IsDigit(c: char) {
    '0' <= c <= '9'
  }

  function Digit(c: char): nat
    requires IsDigit(c)
  {
    c as int - '0' as int
  }

  function DigitsValue(s: string): nat
    requires forall i | 0 <= i < |s| :: IsDigit(s[i])
  {
    if s == [] then 0 else 10 * DigitsValue(s[..|s| - 1]) + Digit(s[|s| - 1])
  }

  function ParseDigits(digits: string): Option<nat> {
    if digits == [] || exists i | 0 <= i < |digits| :: !IsDigit(digits[i]) then None
    else if DigitsValue(digits) > U64_MAX then None
    else Some(DigitsValue(digits))
  }

  /** Parse an unsigned 64-bit number; one leading plus sign is accepted. */
  function ParseU64(s: string): Option<nat> {
    ParseDigits(if s != [] && s[0] == '+' then s[1..] else s)
  }

  const UNIT := "bytes "

  /** First position, last position and complete length of a range response. */
  function ParseContentRange(value: string): Option<(nat, nat, nat)> {
    if !(UNIT <= value) then None
    else
      match SplitOnce(value[|UNIT|..], '/')
      case None => None
      case Some((bounds, total)) =>
        match SplitOnce(bounds, '-')
        case None => None
        case Some((first, last)) =>
          match (ParseU64(first), ParseU64(last), ParseU64(total))
          case (Some(f), Some(l), Some(t)) => Some((f, l, t))
          case _ => None
  }

  predicate ValidateContentRange(value: string, offset: nat, size: nat) {
    match ParseContentRange(value)
    case None => false
    case Some((first, last, total)) =>
      first == offset && total == size && last < U64_MAX && last + 1 == size && first <= last
  }

  function Decimal(n: nat): (r: string)
    ensures r != [] && forall i | 0 <= i < |r| :: IsDigit(r[i])
  {
    var digit := [('0' as nat + n % 10) as char];
    if n < 10 then digit else Decimal(n / 10) + digit
  }

  lemma {:induction false} DecimalValue(n: nat)
    ensures DigitsValue(Decimal(n)) == n
  {
    var r := Decimal(n);
    if n >= 10 {
      DecimalValue(n / 10);
      assert r[..|r| - 1] == Decimal(n / 10);
    } else {
      assert r[..|r| - 1] == [];
    }
  }

  lemma ParseDecimal(n: nat)
    requires n <= U64_MAX
    ensures ParseU64(Decimal(n)) == Some(n) && '-' !in Decimal(n) && '/' !in Decimal(n)
  {
    DecimalValue(n);
    assert IsDigit(Decimal(n)[0]);
  }

  lemma {:induction false} SplitAt(a: string, c: char, b: string)
    requires c !in a
    ensures SplitOnce(a + [c] + b, c) == Some((a, b))
  {
    var s := a + [c] + b;
    if a == [] {
      assert s[1..] == b;
    } else {
      SplitAt(a[1..], c, b);
      assert s[1..] == a[1..] + [c] + b;
      assert a == [a[0]] + a[1..];
    }
  }

  /** A range response as section 14.4 of RFC 9110 writes it. */
  function RangeResponse(first: nat, last: nat, total: nat): string {
    UNIT + (Decimal(first) + "-" + Decimal(last) + "/" + Decimal(total))
  }

  lemma ParseRangeResponse(first: nat, last: nat, total: nat)
    requires first <= U64_MAX && last <= U64_MAX && total <= U64_MAX
    ensures ParseContentRange(RangeResponse(first, last, total)) == Some((first, last, total))
  {
    hide Decimal;
    ParseDecimal(first);
    ParseDecimal(last);
    ParseDecimal(total);
    var bounds := Decimal(first) + "-" + Decimal(last);
    var range := bounds + "/" + Decimal(total);
    assert RangeResponse(first, last, total)[|UNIT|..] == range;
    SplitAt(bounds, '/', Decimal(total));
    SplitAt(Decimal(first), '-', Decimal(last));
  }

  /** Among well-formed range responses exactly the one that continues the part file to its end is
      accepted; in particular its last position is below its complete length and not below its first
      position, as section 14.4 of RFC 9110 demands. */
  lemma ValidRangeContinues(first: nat, last: nat, total: nat, offset: nat, size: nat)
    requires first <= U64_MAX && last <= U64_MAX && total <= U64_MAX
    ensures ValidateContentRange(RangeResponse(first, last, total), offset, size)
            <==> first == offset && total == size && last + 1 == size && offset < size
  {
    ParseRangeResponse(first, last, total);
  }

  // ---------------------------------------------------------------- every header

  function Zeros(k: nat): string {
    seq(k, i => '0')
  }

  /** A decimal numeral of `n`, perhaps with leading zeros. */
  ghost predicate Numeral(digits: string, n: nat) {
    exists k: nat :: digits == Zeros(k) + Decimal(n)
  }

  /** What a 64-bit number may look like: a numeral, perhaps after a plus sign. */
  ghost predicate Denotes(s: string, n: nat) {
    n <= U64_MAX && (Numeral(s, n) || (s != [] && s[0] == '+' && Numeral(s[1..], n)))
  }

  lemma {:induction false} ZerosCountNothing(k: nat, n: nat)
    ensures var s := Zeros(k) + Decimal(n); (forall i | 0 <= i < |s| :: IsDigit(s[i])) && DigitsValue(s) == n
    decreases n
  {
    var s, d := Zeros(k) + Decimal(n), Decimal(n);
    assert s[..|s| - 1] == Zeros(k) + d[..|d| - 1] && s[|s| - 1] == d[|d| - 1];
    if n >= 10 {
      ZerosCountNothing(k, n / 10);
      assert d[..|d| - 1] == Decimal(n / 10);
    } else {
      OnlyZeros(k);
      assert d[..|d| - 1] == [];
      assert Zeros(k) + [] == Zeros(k);
    }
  }

  lemma {:induction false} OnlyZeros(k: nat)
    ensures DigitsValue(Zeros(k)) == 0
  {
    if k > 0 {
      OnlyZeros(k - 1);
      assert Zeros(k)[..k - 1] == Zeros(k - 1);
    }
  }

  lemma DecimalSnoc(n: nat, c: char)
    requires IsDigit(c)
    ensures Decimal(Digit(c)) == [c]
    ensures n > 0 ==> Decimal(10 * n + Digit(c)) == Decimal(n) + [c]
  {
    if n > 0 {
      var m := 10 * n + Digit(c);
      assert m / 10 == n && m % 10 == Digit(c);
    }
  }

  lemma NumeralSnoc(s: string, n: nat, c: char)
    requires Numeral(s, n) && IsDigit(c)
    ensures Numeral(s + [c], 10 * n + Digit(c))
  {
    hide Decimal, Digit, IsDigit;
    var k: nat :| s == Zeros(k) + Decimal(n);
    DecimalSnoc(n, c);
    if n == 0 {
      ZeroIsZero();
      assert s + [c] == Zeros(k + 1) + Decimal(Digit(c));
    } else {
      assert s + [c] == Zeros(k) + Decimal(10 * n + Digit(c));
    }
  }

  lemma ZeroIsZero()
    ensures Decimal(0) == ['0']
  {
  }

  lemma {:induction false} DigitsAreNumeral(s: string)
    requires s != [] && forall i | 0 <= i < |s| :: IsDigit(s[i])
    ensures Numeral(s, DigitsValue(s))
  {
    hide Numeral, Decimal;
    var init, last := s[..|s| - 1], s[|s| - 1];
    assert s == init + [last];
    if init == [] {
      OneDigit(last);
    } else {
      DigitsAreNumeral(init);
      NumeralSnoc(init, DigitsValue(init), last);
    }
  }

  lemma OneDigit(c: char)
    requires IsDigit(c)
    ensures Numeral([c], Digit(c))
  {
    DecimalSnoc(0, c);
    assert [c] == Zeros(0) + Decimal(Digit(c));
  }

  lemma NumeralIff(digits: string, n: nat)
    ensures Numeral(digits, n) <==>
              digits != [] && (forall i | 0 <= i < |digits| :: IsDigit(digits[i])) && DigitsValue(digits) == n
  {
    if k: nat :| digits == Zeros(k) + Decimal(n) {
      ZerosCountNothing(k, n);
    }
    if digits != [] && forall i | 0 <= i < |digits| :: IsDigit(digits[i]) {
      DigitsAreNumeral(digits);
    }
  }

  lemma ParseU64Iff(s: string, n: nat)
    ensures ParseU64(s) == Some(n) <==> Denotes(s, n)
    ensures Denotes(s, n) ==> '-' !in s && '/' !in s
  {
    hide Numeral, DigitsValue;
    var digits := if s != [] && s[0] == '+' then s[1..] else s;
    NumeralIff(s, n);
    NumeralIff(digits, n);
    assert s != [] && s[0] == '+' ==> !IsDigit(s[0]) && s == ['+'] + digits;
    assert ParseU64(s) == ParseDigits(digits);
  }

  /** The header names, in whatever numerals, exactly the rest of the artifact behind the part file. */
  ghost predicate Continues(value: string, offset: nat, size: nat) {
    exists first, last, total ::
      && value == "bytes " + first + "-" + last + "/" + total
      && Denotes(first, offset) && offset < size && Denotes(last, size - 1) && Denotes(total, size)
  }

  lemma AcceptedContinues(value: string, offset: nat, size: nat)
    requires ValidateContentRange(value, offset, size)
    ensures Continues(value, offset, size)
  {
    hide Denotes, ParseU64;
    var (bounds, total) := SplitOnce(value[|UNIT|..], '/').value;
    var (first, last) := SplitOnce(bounds, '-').value;
    ParseU64Iff(first, offset);
    ParseU64Iff(last, size - 1);
    ParseU64Iff(total, size);
    assert value == UNIT + value[|UNIT|..];
    assert value == "bytes " + first + "-" + last + "/" + total;
  }

  lemma ContinuingIsAccepted(value: string, first: string, last: string, total: string, offset: nat, size: nat)
    requires value == "bytes " + first + "-" + last + "/" + total
    requires Denotes(first, offset) && offset < size && Denotes(last, size - 1) && Denotes(total, size)
    ensures ValidateContentRange(value, offset, size)
  {
    hide Denotes, ParseU64, SplitOnce;
    ParseU64Iff(first, offset);
    ParseU64Iff(last, size - 1);
    ParseU64Iff(total, size);
    SizeFits(total, size);
    var bounds := first + "-" + last;
    assert value[|UNIT|..] == bounds + "/" + total;
    SplitAt(bounds, '/', total);
    SplitAt(first, '-', last);
  }

  /** Whatever the server sends as a content range, it is accepted exactly if it names the rest of the
      artifact. */
  lemma RangeAcceptedIff(value: string, offset: nat, size: nat)
    ensures ValidateContentRange(value, offset, size) <==> Continues(value, offset, size)
  {
    hide Denotes, ValidateContentRange;
    if ValidateContentRange(value, offset, size) {
      AcceptedContinues(value, offset, size);
    }
    if Continues(value, offset, size) {
      var first, last, total :| value == "bytes " + first + "-" + last + "/" + total
        && Denotes(first, offset) && offset < size && Denotes(last, size - 1) && Denotes(total, size);
      ContinuingIsAccepted(value, first, last, total, offset, size);
    }
  }

  lemma SizeFits(s: string, n: nat)
    requires Denotes(s, n)
    ensures n <= U64_MAX
  {
  }

  // ---------------------------------------------------------------- files

  datatype Artifact = Artifact(id: string, size: nat, digest: Bytes, maxRetries: nat)

  /** The cache files of one artifact. `cancelled` tells that the user cancelled before the download began,
      `calm` that the user does not cancel later, `firm` that files can always be removed and renamed. When
      nothing is faulty, disk, network and user cause no trouble and the server honours ranges and sends
      whole bodies. */
  class Cache {
    const troubled: bool
    const cancelled: bool
    const calm: bool
    const firm: bool
    const faulty: bool := troubled || cancelled
    var part: Option<Bytes>
    var complete: Option<Bytes>

    constructor (troubled: bool, cancelled: bool, calm: bool, firm: bool, part: Option<Bytes>, complete: Option<Bytes>)
      ensures this.troubled == troubled && this.cancelled == cancelled && this.calm == calm && this.firm == firm
      ensures this.part == part && this.complete == complete
    {
      this.troubled, this.cancelled, this.calm, this.firm := troubled, cancelled, calm, firm;
      this.part, this.complete := part, complete;
    }

    /** Whether one fallible step succeeds. */
    method MaySucceed() returns (ok: bool)
      ensures !faulty ==> ok
    {
      ok := *;
      ok := ok || !faulty;
    }

    /** Whether a removal or a rename succeeds. */
    method DiskObeys() returns (ok: bool)
      ensures !faulty || firm ==> ok
    {
      ok := MaySucceed();
      ok := ok || firm;
    }

    /** Whether the user lets the download go on. */
    method UserContinues() returns (ok: bool)
      ensures !faulty ==> ok
      ensures cancelled ==> !ok
      ensures calm && !cancelled ==> ok
    {
      ok := MaySucceed();
      ok := (ok || calm) && !cancelled;
    }

    function PartLength(): nat
      reads this
    {
      if part.Some? then |part.value| else 0
    }

    /** The part file is what a complete download would start with. */
    predicate IsPrefix(content: Bytes)
      reads this
    {
      part.Some? ==> part.value <= content
    }

    method RemovePart() returns (ok: bool)
      modifies this`part
      ensures part == if ok then None else old(part)
      ensures !faulty || firm ==> ok
    {
      ok := DiskObeys();
      if ok {
        part := None;
      }
    }

    method RemoveComplete() returns (ok: bool)
      modifies this`complete
      ensures complete == if ok then None else old(complete)
      ensures !faulty || firm ==> ok
    {
      ok := DiskObeys();
      if ok {
        complete := None;
      }
    }

    /** Replace the complete file by the part file. */
    method PromoteVerified() returns (ok: bool)
      requires part.Some?
      modifies this
      ensures ok ==> complete == old(part) && part == None
      ensures !ok ==> part == old(part) && (complete == old(complete) || complete == None)
      ensures !faulty || firm ==> ok
    {
      ok := RemoveComplete();
      if !ok {
        return;
      }
      ok := DiskObeys();
      if ok {
        complete, part := part, None;
      }
    }
  }

  predicate Exact(sha256: Bytes -> Bytes, file: Option<Bytes>, a: Artifact) {
    file.Some? && |file.value| == a.size && sha256(file.value) == a.digest
  }

  /** Exact size and full digest; None stands for an I/O error. */
  method VerifyFile(cache: Cache, sha256: Bytes -> Bytes, file: Option<Bytes>, a: Artifact) returns (r: Option<bool>)
    ensures r.Some? ==> (r.value <==> Exact(sha256, file, a))
    ensures !cache.faulty ==> r.Some?
  {
    var readable := cache.MaySucceed();
    if !readable {
      return None;
    }
    r := Some(file.Some? && |file.value| == a.size && sha256(file.value) == a.digest);
  }

  // ---------------------------------------------------------------- one attempt

  datatype Attempt = Done | CancelledAttempt | FailedAttempt

  /** The item is in the book under its exact size. */
  predicate Booked(book: ProgressBook, a: Artifact)
    reads book
  {
    book.WellFormed() && book.Find(a.id).Some? && book.items[book.Find(a.id).value].size == a.size
  }

  /** The network counter has room for the whole artifact. */
  predicate Fits(book: ProgressBook, a: Artifact)
    reads book
  {
    book.networkTotal + a.size <= U64_MAX
  }

  function Recorded(book: ProgressBook, a: Artifact): nat
    requires Booked(book, a)
    reads book
  {
    book.items[book.Find(a.id).value].received
  }

  /** An update of received bytes does not move an item. */
  lemma {:induction false} SameFind(items: seq<ItemProgress>, id: string, i: nat, bytes: nat, n: nat)
    requires n <= |items| && i < |items|
    ensures ProgressBook.FindIn(items[i := items[i].(received := bytes)], id, n) == ProgressBook.FindIn(items, id, n)
  {
    if n > 0 {
      SameFind(items, id, i, bytes, n - 1);
    }
  }

  method SetRecorded(book: ProgressBook, a: Artifact, bytes: nat)
    requires Booked(book, a) && bytes <= a.size
    modifies book`items
    ensures Booked(book, a) && Recorded(book, a) == bytes
  {
    SameFind(book.items, a.id, book.Find(a.id).value, bytes, |book.items|);
    var error := book.SetExistingBytes(a.id, bytes);
  }

  method AddRecorded(book: ProgressBook, a: Artifact, bytes: nat) returns (ok: bool)
    requires Booked(book, a) && Recorded(book, a) + bytes <= a.size
    modifies book`items, book`networkTotal, book`samples
    ensures Booked(book, a) && Recorded(book, a) == old(Recorded(book, a)) + bytes
    ensures ok <==> old(book.networkTotal) + bytes <= U64_MAX
    ensures ok ==> book.networkTotal == old(book.networkTotal) + bytes
  {
    SameFind(book.items, a.id, book.Find(a.id).value, Recorded(book, a) + bytes, |book.items|);
    var elapsed: nat := *;
    var error := book.RecordNetworkBytes(a.id, bytes, elapsed);
    ok := error.None?;
  }

  const READ_BUFFER_SIZE: nat := 65536

  /** What comes back after the headers: where the body starts, and how many bytes it may have. */
  datatype Accepted = Accepted(start: nat, length: nat)

  /** Decide what to do with status, range and length of a response. A full response to a range request
      starts over. None refuses the response. */
  method AcceptResponse(cache: Cache, book: ProgressBook, a: Artifact, status: nat, range: Option<string>, length: nat)
    returns (r: Option<Accepted>)
    requires Booked(book, a) && Recorded(book, a) <= cache.PartLength()
    modifies book`items
    ensures Booked(book, a) && Recorded(book, a) <= cache.PartLength()
    ensures r.Some? ==> r.value.length == length && r.value.start + length == a.size
    ensures r.Some? ==> if r.value.start == 0 then Recorded(book, a) == 0
                        else r.value.start == cache.PartLength() && Recorded(book, a) == old(Recorded(book, a))
    ensures (status == 206 && range.Some? && Continues(range.value, cache.PartLength(), a.size)
             && length == a.size - cache.PartLength()) ==> r.Some?
    ensures status == 200 && length == a.size ==> r.Some?
    ensures r.Some? ==> (status == 200 && r.value.start == 0)
                        || (status == 206 && r.value.start == cache.PartLength() && range.Some?
                            && Continues(range.value, r.value.start, a.size))
  {
    hide Continues;
    var offset := cache.PartLength();
    if range.Some? {
      RangeAcceptedIff(range.value, offset, a.size);
    }
    if status == 206 {
      if range.None? || !ValidateContentRange(range.value, offset, a.size) {
        return None;
      }
      r := if length == a.size - offset then Some(Accepted(offset, length)) else None;
    } else if status == 200 {
      if offset > 0 {
        SetRecorded(book, a, 0);
      }
      r := if length == a.size then Some(Accepted(0, length)) else None;
    } else {
      r := None;
    }
  }

  /** Append the next bytes of the body. A failing write may leave some of them. */
  method WriteChunk(cache: Cache, content: Bytes, start: nat, body: Bytes, position: nat, count: nat) returns (complete: bool)
    requires body == (if start <= |content| then content[start..] else []) && position + count <= |body|
    requires cache.part.Some? && cache.PartLength() == start + position
    modifies cache`part
    ensures cache.part.Some? && start + position <= cache.PartLength() <= start + position + count
    ensures complete ==> cache.part == Some(old(cache.part).value + body[position..position + count])
    ensures old(cache.IsPrefix(content)) ==> cache.IsPrefix(content)
    ensures !cache.faulty ==> complete
  {
    var written: nat := *;
    written := Least(written, count);
    complete := cache.MaySucceed();
    var taken := if complete then count else written;
    Extends(content, start, body, position, taken);
    cache.part := Some(cache.part.value + body[position..position + taken]);
  }

  /** Copy the body to the part file. The server may stop early, a read or a write may fail, and a
      failing write may leave some of its bytes. */
  method CopyBody(cache: Cache, book: ProgressBook, a: Artifact, content: Bytes, accepted: Accepted)
    returns (r: Attempt)
    requires Booked(book, a) && accepted.start + accepted.length == a.size
    requires cache.part.Some? && cache.PartLength() == accepted.start && Recorded(book, a) <= cache.PartLength()
    modifies cache`part, book`items, book`networkTotal, book`samples
    ensures Booked(book, a) && Recorded(book, a) <= cache.PartLength() <= a.size
    ensures old(cache.IsPrefix(content)) ==> cache.IsPrefix(content)
    ensures r.Done? ==> cache.part.Some? && cache.PartLength() == a.size
    ensures r.Done? ==> Recorded(book, a) == old(Recorded(book, a)) + accepted.length
                        && book.networkTotal == old(book.networkTotal) + accepted.length
    ensures cache.cancelled ==> r.CancelledAttempt? && cache.part == old(cache.part)
    ensures cache.calm && !cache.cancelled ==> !r.CancelledAttempt?
    ensures !cache.faulty && |content| == a.size && old(Fits(book, a)) ==> r.Done?
  {
    hide Booked, Recorded;
    var body := if accepted.start <= |content| then content[accepted.start..] else [];
    ghost var wasPrefix := cache.IsPrefix(content);
    var position := 0;
    while true
      invariant position <= accepted.length && position <= |body|
      invariant Booked(book, a) && Recorded(book, a) <= cache.PartLength()
      invariant cache.part.Some? && cache.PartLength() == accepted.start + position
      invariant wasPrefix ==> cache.IsPrefix(content)
      invariant cache.cancelled ==> cache.part == old(cache.part)
      invariant Recorded(book, a) == old(Recorded(book, a)) + position
      invariant book.networkTotal == old(book.networkTotal) + position
      decreases accepted.length - position
    {
      var continues := cache.UserContinues();
      if !continues {
        return CancelledAttempt;
      }
      var received := cache.MaySucceed();
      if !received {
        return FailedAttempt;
      }
      var count: nat := *;
      if count == 0 && !cache.faulty {
        count := 1;
      }
      count := Least(count, Least(READ_BUFFER_SIZE, Least(accepted.length - position, |body| - position)));
      if count == 0 {
        break;
      }
      var complete := WriteChunk(cache, content, accepted.start, body, position, count);
      if !complete {
        return FailedAttempt;
      }
      position := position + count;
      var ok := AddRecorded(book, a, count);
      if !ok {
        return FailedAttempt;
      }
    }
    var synced := cache.MaySucceed();
    if !synced || cache.PartLength() != a.size {
      return FailedAttempt;
    }
    r := Done;
  }

  function Least(a: nat, b: nat): nat {
    if a <= b then a else b
  }

  /** The next bytes of the body continue a prefix of the content. */
  lemma Extends(content: Bytes, start: nat, body: Bytes, position: nat, taken: nat)
    requires body == (if start <= |content| then content[start..] else [])
    requires position + taken <= |body|
    ensures start + position <= |content| ==> content[..start + position] + body[position..position + taken] <= content
  {
    if start <= |content| {
      assert body[position..position + taken] == content[start + position..start + position + taken];
      assert content[..start + position] + content[start + position..start + position + taken]
          == content[..start + position + taken];
    }
  }

  /** One request. The server answers with any status, range and length; a body starts where the
      response says it does. Bytes an earlier failing write left uncounted stay uncounted exactly if the
      server resumes. */
  method DownloadOnce(cache: Cache, book: ProgressBook, a: Artifact, content: Bytes)
    returns (r: Attempt, ghost resumed: bool)
    requires Booked(book, a) && Recorded(book, a) <= cache.PartLength()
    modifies cache`part, book`items, book`networkTotal, book`samples
    ensures Booked(book, a) && Recorded(book, a) <= cache.PartLength()
    ensures old(cache.IsPrefix(content)) ==> cache.IsPrefix(content)
    ensures r.Done? ==> cache.part.Some? && cache.PartLength() == a.size
    ensures r.Done? ==> a.size - Recorded(book, a) == if resumed then old(cache.PartLength() - Recorded(book, a)) else 0
    ensures cache.calm && !cache.cancelled ==> !r.CancelledAttempt?
    ensures cache.cancelled ==> !r.Done?
    ensures !cache.faulty && |content| == a.size && old(cache.PartLength()) < a.size && old(Fits(book, a)) ==> r.Done?
  {
    hide Booked, Recorded, ValidateContentRange, RangeResponse, Continues;
    resumed := false;
    var answered := cache.MaySucceed();
    if !answered {
      return FailedAttempt, false;
    }
    var status: nat := *;
    var range: Option<string> := *;
    var length: nat := *;
    if !cache.faulty && cache.PartLength() < a.size {
      status := if cache.PartLength() == 0 then 200 else 206;
      range := Some(RangeResponse(cache.PartLength(), a.size - 1, a.size));
      length := a.size - cache.PartLength();
      if Fits(book, a) {
        ValidRangeContinues(cache.PartLength(), a.size - 1, a.size, cache.PartLength(), a.size);
        RangeAcceptedIff(range.value, cache.PartLength(), a.size);
      }
    }
    var accepted := AcceptResponse(cache, book, a, status, range, length);
    if accepted.None? {
      return FailedAttempt, false;
    }
    var opens := cache.MaySucceed();
    if !opens {
      return FailedAttempt, false;
    }
    resumed := accepted.value.start > 0;
    if accepted.value.start == 0 {
      cache.part := Some([]);
    }
    r := CopyBody(cache, book, a, content, accepted.value);
  }

  // ---------------------------------------------------------------- the whole download

  datatype Outcome = Outcome(reusedCache: bool)

  /** The part file was promoted; it was removed because its digest is wrong; it could not be read; or it
      could be neither promoted nor removed. */
  datatype Settlement = Promoted | Rejected | Unreadable | Immovable

  /** Verify the part file and promote it, or remove it when its digest is wrong. */
  method SettlePart(sha256: Bytes -> Bytes, cache: Cache, book: ProgressBook, a: Artifact) returns (r: Settlement)
    requires Booked(book, a) && Recorded(book, a) <= cache.PartLength()
    modifies cache, book`items
    ensures Booked(book, a)
    ensures r.Promoted? ==> Exact(sha256, cache.complete, a) && cache.complete == old(cache.part) && cache.part.None?
                            && Recorded(book, a) == old(Recorded(book, a))
    ensures !r.Promoted? ==> cache.complete == old(cache.complete) || cache.complete.None?
    ensures !r.Promoted? ==> Recorded(book, a) <= cache.PartLength() && (cache.part == old(cache.part) || cache.part.None?)
    ensures r.Rejected? ==> !Exact(sha256, old(cache.part), a) && cache.part.None? && Recorded(book, a) == 0
    ensures r.Unreadable? ==> cache.part == old(cache.part) && cache.complete == old(cache.complete)
    ensures cache.firm ==> !r.Immovable?
    ensures !cache.faulty ==> r == if Exact(sha256, old(cache.part), a) then Promoted else Rejected
  {
    var verified := VerifyFile(cache, sha256, cache.part, a);
    if verified.None? {
      return Unreadable;
    }
    if verified.value {
      var promoted := cache.PromoteVerified();
      return if promoted then Promoted else Immovable;
    }
    var removed := cache.RemovePart();
    if !removed {
      return Immovable;
    }
    SetRecorded(book, a, 0);
    r := Rejected;
  }

  /** Reuse, resume, download, verify. Success leaves a complete file of exact size and digest; failure
      leaves a part file that still is a prefix of the content, with no more bytes recorded than it
      holds; there are at most `maxRetries` attempts. */
  method DownloadArtifact(sha256: Bytes -> Bytes, cache: Cache, book: ProgressBook, a: Artifact, content: Bytes)
    returns (r: Option<Outcome>, attempts: nat)
    requires Booked(book, a)
    modifies cache, book`items, book`networkTotal, book`samples
    ensures Booked(book, a)
    ensures r.Some? ==> Exact(sha256, cache.complete, a) && Recorded(book, a) <= a.size
    ensures r.Some? && attempts <= 1 ==> Recorded(book, a) == a.size
    ensures r.Some? ==> (r.value.reusedCache <==> attempts == 0)
    ensures r.Some? && r.value.reusedCache ==> cache.complete in {old(cache.complete), old(cache.part)}
    ensures cache.cancelled ==> attempts == 0
    ensures old(Exact(sha256, cache.complete, a)) ==> cache.complete == old(cache.complete)
    ensures r.None? && attempts > 0 ==> cache.complete.None?
    ensures !cache.faulty && old(Exact(sha256, cache.complete, a)) ==>
              r == Some(Outcome(true)) && cache.complete == old(cache.complete) && cache.part == old(cache.part)
    ensures !cache.faulty && !old(Exact(sha256, cache.complete, a)) && old(Exact(sha256, cache.part, a)) ==>
              r == Some(Outcome(true)) && cache.complete == old(cache.part)
    ensures old(cache.IsPrefix(content)) ==> cache.IsPrefix(content)
    ensures r.None? && old(Recorded(book, a)) <= old(cache.PartLength()) ==> Recorded(book, a) <= cache.PartLength()
    ensures attempts <= a.maxRetries
    ensures old(Healthy(sha256, cache, book, a, content)) ==>
              r.Some? && attempts <= 1 && (cache.complete == Some(content) || cache.complete == old(cache.complete))
  {
    hide Booked, Recorded;
    r, attempts := None, 0;
    var verified := VerifyFile(cache, sha256, cache.complete, a);
    if verified == Some(true) {
      SetRecorded(book, a, a.size);
      return Some(Outcome(true)), 0;
    }
    if verified.None? {
      return;
    }
    var ok := cache.RemoveComplete();
    if !ok {
      return;
    }
    if cache.PartLength() > a.size {
      ok := cache.RemovePart();
      if !ok {
        return;
      }
    }
    SetRecorded(book, a, cache.PartLength());
    if cache.PartLength() == a.size {
      if cache.part.Some? && cache.IsPrefix(content) && |content| == a.size {
        FullPrefix(cache.part.value, content);
      }
      var settled := SettlePart(sha256, cache, book, a);
      if settled.Promoted? {
        return Some(Outcome(true)), 0;
      }
      if !settled.Rejected? {
        return;
      }
    }
    r, attempts := Retry(sha256, cache, book, a, content);
  }

  /** Nothing is faulty, the content is the artifact, the part file belongs to it, and a try is allowed. */
  predicate Healthy(sha256: Bytes -> Bytes, cache: Cache, book: ProgressBook, a: Artifact, content: Bytes)
    reads cache, book
  {
    && !cache.faulty && Exact(sha256, Some(content), a) && a.size > 0 && a.maxRetries > 0
    && cache.IsPrefix(content) && Fits(book, a)
  }

  lemma FullPrefix(part: Bytes, content: Bytes)
    requires part <= content && |part| == |content|
    ensures part == content
  {
  }

  method Retry(sha256: Bytes -> Bytes, cache: Cache, book: ProgressBook, a: Artifact, content: Bytes)
    returns (r: Option<Outcome>, attempts: nat)
    requires Booked(book, a) && Recorded(book, a) <= cache.PartLength()
    modifies cache, book`items, book`networkTotal, book`samples
    ensures Booked(book, a)
    ensures r.Some? ==> !r.value.reusedCache && Exact(sha256, cache.complete, a) && Recorded(book, a) <= a.size
    ensures r.Some? && attempts == 1 && old(Recorded(book, a)) == old(cache.PartLength()) ==> Recorded(book, a) == a.size
    ensures r.Some? ==> attempts >= 1
    ensures r.None? && old(cache.complete).None? ==> cache.complete.None?
    ensures old(cache.IsPrefix(content)) ==> cache.IsPrefix(content)
    ensures r.None? ==> Recorded(book, a) <= cache.PartLength()
    ensures attempts <= a.maxRetries
    ensures cache.cancelled ==> attempts == 0 && r.None? && cache.part == old(cache.part) && cache.complete == old(cache.complete)
    ensures cache.calm && cache.firm && !cache.cancelled && r.None? ==> attempts == a.maxRetries
    ensures old(Healthy(sha256, cache, book, a, content)) && old(cache.PartLength()) < a.size ==>
              r.Some? && attempts == 1 && cache.complete == Some(content)
  {
    ghost var wasPrefix := cache.IsPrefix(content);
    hide Booked, Recorded;
    ghost var healthy := Healthy(sha256, cache, book, a, content) && cache.PartLength() < a.size;
    r, attempts := None, 0;
    while attempts < a.maxRetries
      invariant attempts <= a.maxRetries && r.None?
      invariant old(cache.complete).None? ==> cache.complete.None?
      invariant cache.cancelled ==> attempts == 0 && cache.part == old(cache.part) && cache.complete == old(cache.complete)
      invariant Booked(book, a) && Recorded(book, a) <= cache.PartLength()
      invariant wasPrefix ==> cache.IsPrefix(content)
      invariant attempts == 0 ==> Recorded(book, a) == old(Recorded(book, a)) && cache.PartLength() == old(cache.PartLength())
      invariant healthy ==> attempts == 0 && Healthy(sha256, cache, book, a, content) && cache.PartLength() < a.size
    {
      var continues := cache.UserContinues();
      if !continues {
        return;
      }
      attempts := attempts + 1;
      ghost var resumed;
      var attempt;
      attempt, resumed := DownloadOnce(cache, book, a, content);
      if attempt.CancelledAttempt? {
        return;
      }
      if attempt.Done? {
        if healthy {
          FullPrefix(cache.part.value, content);
        }
        var settled := SettlePart(sha256, cache, book, a);
        if settled.Promoted? {
          return Some(Outcome(false)), attempts;
        }
        if settled.Immovable? {
          return;
        }
      }
    }
  }
}
