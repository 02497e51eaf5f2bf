/** Byte accounting of the runtime installer. */
module Progress {
  import opened Domain

  const SPEED_WINDOW_MS: nat := 5000

  datatype ItemProgress = ItemProgress(id: string, size: nat, required: bool, received: nat)

  datatype ProgressError = UnknownItem | CounterOverflow | DuplicateItem

  datatype ProgressSnapshot = ProgressSnapshot(
    required: nat, received: nat, network: nat, speed: nat, eta: Option<nat>, basisPoints: nat)

  function RequiredTotal(items: seq<ItemProgress>): nat {
    if items == [] then 0
    else RequiredTotal(items[..|items| - 1]) + if items[|items| - 1].required then items[|items| - 1].size else 0
  }

  function ReceivedTotal(items: seq<ItemProgress>): nat {
    if items == [] then 0
    else ReceivedTotal(items[..|items| - 1]) + if items[|items| - 1].required then items[|items| - 1].received else 0
  }

  function AllSizes(items: seq<ItemProgress>): nat {
    if items == [] then 0 else AllSizes(items[..|items| - 1]) + items[|items| - 1].size
  }

  predicate Distinct(items: seq<ItemProgress>) {
    forall i, j | 0 <= i < j < |items| :: items[i].id != items[j].id
  }

  predicate Bounded(items: seq<ItemProgress>) {
    forall i | 0 <= i < |items| :: items[i].received <= items[i].size
  }

  lemma {:induction false} TotalsOfUpdate(items: seq<ItemProgress>, i: nat, x: ItemProgress)
    requires i < |items|
    ensures RequiredTotal(items[i := x]) + (if items[i].required then items[i].size else 0)
         == RequiredTotal(items) + if x.required then x.size else 0
    ensures AllSizes(items[i := x]) + items[i].size == AllSizes(items) + x.size
    ensures RequiredTotal(items) >= if items[i].required then items[i].size else 0
  {
    var init := items[..|items| - 1];
    if i == |init| {
      assert items[i := x][..|init|] == init;
    } else {
      TotalsOfUpdate(init, i, x);
      assert items[i := x][..|init|] == init[i := x];
    }
  }

  /** Received bytes stay within the required bytes, and those within all bytes. */
  lemma {:induction false} TotalsAreOrdered(items: seq<ItemProgress>)
    requires Bounded(items)
    ensures ReceivedTotal(items) <= RequiredTotal(items) <= AllSizes(items)
  {
    if items != [] {
      TotalsAreOrdered(items[..|items| - 1]);
    }
  }

  lemma {:induction false} PrefixTotals(items: seq<ItemProgress>, n: nat)
    requires n <= |items|
    ensures RequiredTotal(items[..n]) <= RequiredTotal(items) && ReceivedTotal(items[..n]) <= ReceivedTotal(items)
  {
    if n == |items| {
      assert items[..n] == items;
    } else {
      PrefixTotals(items[..|items| - 1], n);
      assert items[..|items| - 1][..n] == items[..n];
    }
  }

  // ---------------------------------------------------------------- speed, time, share

  /** The least number of seconds in which `remaining` bytes pass at `speed`. */
  function Eta(remaining: nat, speed: nat): (n: nat)
    requires speed > 0
    ensures n * speed >= remaining
    ensures forall m: nat | m * speed >= remaining :: n <= m
  {
    var q := remaining / speed;
    var n := if remaining % speed == 0 then q else q + 1;
    assert remaining == q * speed + remaining % speed;
    assert n * speed >= remaining by {
      assert (q + 1) * speed == q * speed + speed;
    }
    assert forall m: nat | m * speed >= remaining :: n <= m by {
      forall m: nat | m * speed >= remaining ensures n <= m {
        LeastMultiple(remaining, speed, q, n, m);
      }
    }
    n
  }

  lemma LeastMultiple(remaining: nat, speed: nat, q: nat, n: nat, m: nat)
    requires speed > 0 && remaining == q * speed + remaining % speed && m * speed >= remaining
    requires n == if remaining % speed == 0 then q else q + 1
    ensures n <= m
  {
    if m < n {
      if remaining % speed == 0 {
        assert (m + 1) * speed <= q * speed by {
          TimesMonotone(m + 1, q, speed);
        }
      } else {
        assert m * speed <= q * speed by {
          TimesMonotone(m, q, speed);
        }
      }
    }
  }

  lemma TimesMonotone(a: nat, b: nat, c: nat)
    requires a <= b
    ensures a * c <= b * c
  {
  }

  /** Share of `total` in hundredths of a percent, rounded down. */
  function BasisPoints(received: nat, total: nat): (r: nat)
    requires received <= total
    ensures r <= 10000
    ensures r == 10000 <==> received == total
    ensures total > 0 ==> r * total <= received * 10000 < (r + 1) * total
  {
    if total == 0 then 10000
    else
      ShareBound(received, total);
      received * 10000 / total
  }

  lemma QuotientBelow(x: nat, d: nat, k: nat)
    requires d > 0
    ensures x / d < k <==> x < k * d
  {
    var q := x / d;
    assert x == q * d + x % d;
    if q < k {
      TimesMonotone(q + 1, k, d);
    } else {
      TimesMonotone(k, q, d);
    }
  }

  lemma QuotientBounds(x: nat, d: nat)
    requires d > 0
    ensures x / d * d <= x < (x / d + 1) * d
  {
    assert x == x / d * d + x % d;
  }

  lemma ShareBound(received: nat, total: nat)
    requires received <= total && total > 0
    ensures received * 10000 / total <= 10000
    ensures received * 10000 / total == 10000 <==> received == total
    ensures var r := received * 10000 / total; r * total <= received * 10000 < (r + 1) * total
  {
    QuotientBelow(received * 10000, total, 10000);
    QuotientBelow(received * 10000, total, 10001);
    QuotientBounds(received * 10000, total);
  }

  // ---------------------------------------------------------------- the book

  class ProgressBook {
    var items: seq<ItemProgress>
    var total: nat
    var networkTotal: nat
    var samples: seq<(nat, nat)>

    /** The aggregate is the sum of the required sizes and no item has more bytes than its size. */
    predicate WellFormed()
      reads this
    {
      && Distinct(items) && Bounded(items)
      && total == RequiredTotal(items) <= U64_MAX && networkTotal <= U64_MAX
      && samples != [] && (forall i | 0 <= i < |samples| :: samples[i].1 <= networkTotal)
    }

    /** All items together fit the counter, so that no toggle can overflow it. */
    predicate Valid()
      reads this
    {
      WellFormed() && AllSizes(items) <= U64_MAX
    }

    constructor (items: seq<ItemProgress>)
      requires Distinct(items) && RequiredTotal(items) <= U64_MAX
      requires forall i | 0 <= i < |items| :: items[i].received == 0
      ensures WellFormed() && this.items == items && networkTotal == 0 && samples == [(0, 0)]
    {
      this.items := items;
      total := RequiredTotal(items);
      networkTotal := 0;
      samples := [(0, 0)];
    }

    function Find(id: string): (r: Option<nat>)
      reads this
      ensures r.Some? ==> r.value < |items| && items[r.value].id == id
      ensures r.None? ==> forall i | 0 <= i < |items| :: items[i].id != id
    {
      FindIn(items, id, |items|)
    }

    static function FindIn(items: seq<ItemProgress>, id: string, n: nat): (r: Option<nat>)
      requires n <= |items|
      ensures r.Some? ==> r.value < n && items[r.value].id == id
      ensures r.None? ==> forall i | 0 <= i < n :: items[i].id != id
    {
      if n == 0 then None else if items[n - 1].id == id then Some(n - 1) else FindIn(items, id, n - 1)
    }

    method SetExistingBytes(id: string, bytes: nat) returns (error: Option<ProgressError>)
      requires WellFormed()
      modifies this`items
      ensures WellFormed() && AllSizes(items) == AllSizes(old(items))
      ensures error == if old(Find(id)).None? then Some(UnknownItem)
                       else if bytes > old(items)[old(Find(id)).value].size then Some(CounterOverflow) else None
      ensures items == if error.None? then old(items)[old(Find(id)).value := old(items)[old(Find(id)).value].(received := bytes)]
                       else old(items)
    {
      var i := Find(id);
      if i.None? {
        return Some(UnknownItem);
      }
      if bytes > items[i.value].size {
        return Some(CounterOverflow);
      }
      TotalsOfUpdate(items, i.value, items[i.value].(received := bytes));
      items := items[i.value := items[i.value].(received := bytes)];
      error := None;
    }

    /** A toggle keeps the aggregate exact, unless it would overflow: then the item is already marked and
        the aggregate no longer is the sum. In a valid book this cannot happen. */
    method SetRequired(id: string, required: bool) returns (error: Option<ProgressError>)
      requires WellFormed()
      modifies this`items, this`total
      ensures old(Find(id)).None? ==> error == Some(UnknownItem) && items == old(items) && total == old(total)
      ensures old(Find(id)).Some? ==>
                var i := old(Find(id)).value; items == old(items)[i := old(items)[i].(required := required)]
      ensures error.None? ==> WellFormed()
      ensures error.None? <==> old(Find(id)).Some? && RequiredTotal(items) <= U64_MAX
      ensures old(Find(id)).Some? && RequiredTotal(items) > U64_MAX ==> error == Some(CounterOverflow) && total == old(total)
      ensures old(Valid()) ==> Valid() && (error.None? <==> old(Find(id)).Some?)
    {
      var i := Find(id);
      if i.None? {
        return Some(UnknownItem);
      }
      var item := items[i.value];
      TotalsOfUpdate(items, i.value, item.(required := required));
      items := items[i.value := item.(required := required)];
      TotalsAreOrdered(items);
      error := None;
      if item.required == required {
        return;
      }
      if required {
        if total + item.size > U64_MAX {
          return Some(CounterOverflow);
        }
        total := total + item.size;
      } else {
        total := SaturatingSub(total, item.size);
      }
    }

    /** Count bytes written to the part file, and keep a window of samples. */
    method RecordNetworkBytes(id: string, bytes: nat, elapsed: nat) returns (error: Option<ProgressError>)
      requires WellFormed()
      modifies this`items, this`networkTotal, this`samples
      ensures WellFormed() && AllSizes(items) == AllSizes(old(items))
      ensures old(Find(id)).None? ==> error == Some(UnknownItem) && items == old(items) && networkTotal == old(networkTotal)
      ensures old(Find(id)).Some? ==>
                var i := old(Find(id)).value;
                var fits := old(items)[i].received + bytes <= old(items)[i].size;
                && error == (if fits && old(networkTotal) + bytes <= U64_MAX then None else Some(CounterOverflow))
                && items == (if fits then old(items)[i := old(items)[i].(received := old(items)[i].received + bytes)]
                             else old(items))
                && networkTotal == old(networkTotal) + if error.None? then bytes else 0
      ensures error.None? ==> samples[|samples| - 1] == (elapsed, networkTotal)
      ensures error.Some? ==> samples == old(samples)
      ensures error.None? ==> exists dropped ::
                && 0 <= dropped < |old(samples)| && samples == (old(samples) + [(elapsed, networkTotal)])[dropped..]
                && (|samples| > 2 ==> elapsed <= samples[1].0 + SPEED_WINDOW_MS)
                && forall k | 1 <= k <= dropped :: elapsed > old(samples)[k].0 + SPEED_WINDOW_MS
    {
      var i := Find(id);
      if i.None? {
        return Some(UnknownItem);
      }
      var item := items[i.value];
      if item.received + bytes > item.size {
        return Some(CounterOverflow);
      }
      TotalsOfUpdate(items, i.value, item.(received := item.received + bytes));
      items := items[i.value := item.(received := item.received + bytes)];
      if networkTotal + bytes > U64_MAX {
        return Some(CounterOverflow);
      }
      networkTotal := networkTotal + bytes;
      ghost var dropped := PushSample(elapsed);
      error := None;
    }

    /** Append a sample and drop the oldest while the second oldest is out of the window: of all samples
        the longest tail is left that has at most one sample out of the window, or just two samples. */
    method PushSample(elapsed: nat) returns (ghost dropped: nat)
      requires samples != [] && forall i | 0 <= i < |samples| :: samples[i].1 <= networkTotal
      modifies this`samples
      ensures samples != [] && samples[|samples| - 1] == (elapsed, networkTotal)
      ensures forall i | 0 <= i < |samples| :: samples[i].1 <= networkTotal
      ensures dropped < |old(samples)| && samples == (old(samples) + [(elapsed, networkTotal)])[dropped..]
      ensures |samples| > 2 ==> elapsed <= samples[1].0 + SPEED_WINDOW_MS
      ensures forall k | 1 <= k <= dropped :: elapsed > old(samples)[k].0 + SPEED_WINDOW_MS
    {
      samples := samples + [(elapsed, networkTotal)];
      ghost var all := samples;
      dropped := 0;
      while |samples| > 2 && elapsed > samples[1].0 + SPEED_WINDOW_MS
        invariant |samples| >= 2 && samples[|samples| - 1] == (elapsed, networkTotal)
        invariant forall k | 0 <= k < |samples| :: samples[k].1 <= networkTotal
        invariant dropped + |samples| == |all| && samples == all[dropped..]
        invariant forall k | 1 <= k <= dropped :: elapsed > all[k].0 + SPEED_WINDOW_MS
        decreases |samples|
      {
        samples := samples[1..];
        dropped := dropped + 1;
      }
      assert forall k | 0 <= k < |old(samples)| :: old(samples)[k] == all[k];
    }

    /** The aggregate view: exact sums, no saturation, full exactly when everything is there. */
    method Snapshot(now: nat) returns (s: ProgressSnapshot)
      requires WellFormed()
      ensures s.required == RequiredTotal(items) && s.received == ReceivedTotal(items) <= s.required
      ensures s.network == networkTotal
      ensures s.basisPoints <= 10000 && (s.basisPoints == 10000 <==> s.received == s.required)
      ensures s.required > 0 ==> s.basisPoints * s.required <= s.received * 10000 < (s.basisPoints + 1) * s.required
      ensures now <= samples[0].0 ==> s.speed == 0
      ensures now > samples[0].0 ==>
                var bytes, elapsed := networkTotal - samples[0].1, now - samples[0].0;
                s.speed * elapsed <= bytes * 1000 && (s.speed == U64_MAX || bytes * 1000 < (s.speed + 1) * elapsed)
      ensures s.speed <= U64_MAX
      ensures s.eta.None? <==> s.speed == 0
      ensures s.eta.Some? ==> s.eta.value * s.speed >= s.required - s.received
                              && forall m: nat | m * s.speed >= s.required - s.received :: s.eta.value <= m
    {
      var received := 0;
      TotalsAreOrdered(items);
      for i := 0 to |items|
        invariant received == ReceivedTotal(items[..i]) <= U64_MAX
      {
        assert items[..i + 1][..i] == items[..i];
        PrefixTotals(items, i + 1);
        if items[i].required {
          received := SaturatingAdd(received, items[i].received);
        }
      }
      assert items[..|items|] == items;
      var speed := Speed(samples[0], networkTotal, now);
      var eta := if speed == 0 then None else Some(Eta(total - received, speed));
      s := ProgressSnapshot(total, received, networkTotal, speed, eta, BasisPoints(received, total));
    }

    static function Speed(first: (nat, nat), networkTotal: nat, now: nat): (r: nat)
      requires first.1 <= networkTotal
      ensures r > 0 ==> now > first.0 && networkTotal > first.1
      ensures r <= U64_MAX
      ensures now > first.0 ==> r * (now - first.0) <= (networkTotal - first.1) * 1000
      ensures now > first.0 && r < U64_MAX ==> (networkTotal - first.1) * 1000 < (r + 1) * (now - first.0)
    {
      if now <= first.0 then 0
      else
        var rate := (networkTotal - first.1) * 1000 / (now - first.0);
        QuotientBounds((networkTotal - first.1) * 1000, now - first.0);
        if rate <= U64_MAX then rate
        else
          TimesMonotone(U64_MAX, rate, now - first.0);
          U64_MAX
    }
  }

  lemma NothingRequired()
    ensures RequiredTotal([]) == 0
  {
  }

  lemma RequiredSnoc(items: seq<ItemProgress>, x: ItemProgress)
    ensures RequiredTotal(items + [x]) == RequiredTotal(items) + if x.required then x.size else 0
  {
    assert (items + [x])[..|items|] == items;
  }

  /** One fresh item per entry. */
  function ItemsOf(entries: seq<(string, nat, bool)>): (r: seq<ItemProgress>)
    ensures |r| == |entries|
    ensures forall i | 0 <= i < |r| :: r[i] == ItemProgress(entries[i].0, entries[i].1, entries[i].2, 0)
  {
    seq(|entries|, i requires 0 <= i < |entries| => ItemProgress(entries[i].0, entries[i].1, entries[i].2, 0))
  }

  /** Build a book, exactly if no identifier repeats and the required sizes fit the counter; None stands
      for the refusal. */
  method NewWithRequired(entries: seq<(string, nat, bool)>) returns (book: Option<ProgressBook>)
    ensures book.Some? <==> Distinct(ItemsOf(entries)) && RequiredTotal(ItemsOf(entries)) <= U64_MAX
    ensures book.Some? ==> fresh(book.value) && book.value.WellFormed() && book.value.items == ItemsOf(entries)
  {
    hide RequiredTotal;
    ghost var all := ItemsOf(entries);
    var items: seq<ItemProgress> := [];
    var total := 0;
    NothingRequired();
    for i := 0 to |entries|
      invariant items == all[..i] && total == RequiredTotal(items) <= U64_MAX
      invariant Distinct(items)
    {
      assert all[..i + 1] == items + [all[i]] && all[..i + 1][..i] == items;
      PrefixTotals(all, i + 1);
      RequiredSnoc(items, all[i]);
      if entries[i].2 {
        if total + entries[i].1 > U64_MAX {
          return None;
        }
        total := total + entries[i].1;
      }
      var repeated := ProgressBook.FindIn(items, entries[i].0, i);
      if repeated.Some? {
        assert all[repeated.value].id == all[i].id;
        return None;
      }
      items := items + [ItemProgress(entries[i].0, entries[i].1, entries[i].2, 0)];
    }
    assert all[..|entries|] == all;
    var b := new ProgressBook(items);
    book := Some(b);
  }

  lemma {:induction false} AllRequired(items: seq<ItemProgress>)
    requires forall i | 0 <= i < |items| :: items[i].required
    ensures RequiredTotal(items) == AllSizes(items)
  {
    if items != [] {
      AllRequired(items[..|items| - 1]);
    }
  }

  function Required(entries: seq<(string, nat)>): (r: seq<(string, nat, bool)>)
    ensures |r| == |entries| && forall i | 0 <= i < |r| :: r[i] == (entries[i].0, entries[i].1, true)
  {
    seq(|entries|, i requires 0 <= i < |entries| => (entries[i].0, entries[i].1, true))
  }

  /** A book of required items only is built exactly if no identifier repeats and all sizes fit the
      counter; it starts out valid, and every operation keeps it so. */
  method NewBook(entries: seq<(string, nat)>) returns (book: Option<ProgressBook>)
    ensures book.Some? <==> Distinct(ItemsOf(Required(entries))) && AllSizes(ItemsOf(Required(entries))) <= U64_MAX
    ensures book.Some? ==> fresh(book.value) && book.value.Valid() && book.value.items == ItemsOf(Required(entries))
  {
    book := NewWithRequired(Required(entries));
    AllRequired(ItemsOf(Required(entries)));
  }

  datatype Operation =
    | SetExisting(id: string, bytes: nat)
    | Require(id: string, required: bool)
    | RecordBytes(id: string, bytes: nat, elapsed: nat)

  /** Any operations on such a book: the aggregate is always the sum of the required sizes and every
      item stays within its size. */
  method Operate(book: ProgressBook, operations: seq<Operation>)
    requires book.Valid()
    modifies book
    ensures book.Valid()
  {
    for i := 0 to |operations|
      invariant book.Valid()
    {
      match operations[i]
      case SetExisting(id, bytes) => var e := book.SetExistingBytes(id, bytes);
      case Require(id, required) => var e := book.SetRequired(id, required);
      case RecordBytes(id, bytes, elapsed) => var e := book.RecordNetworkBytes(id, bytes, elapsed);
    }
  }
}
