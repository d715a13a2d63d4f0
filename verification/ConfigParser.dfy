/** parse_config of the libusb wrapper: a walk over the served bytes that collects alternates,
    endpoints and class-specific extras, then groups the alternates by interface number. */
module ConfigParser {
  import opened Bytes

  const DT_CONFIG: byte := 2
  const DT_INTERFACE: byte := 4
  const DT_ENDPOINT: byte := 5
  const MAX_BUCKETS := 64

  /** The length of a configuration descriptor. */
  const HEADER: nat := 9

  type Descriptor = seq<byte>

  predicate IsInterface(d: Descriptor) {
    |d| >= 9 && d[1] == DT_INTERFACE
  }

  predicate IsEndpoint(d: Descriptor) {
    |d| >= 7 && d[1] == DT_ENDPOINT
  }

  datatype Endpoint = Endpoint(length: byte, address: byte, attributes: byte, mps: nat, interval: byte, refresh: byte, synch: byte)

  /** One alternate setting: the nine bytes of its descriptor, its endpoints and its extras. */
  datatype Alt = Alt(desc: seq<byte>, eps: seq<Endpoint>, extra: seq<byte>)

  datatype Walked = Walked(lead: seq<byte>, alts: seq<Alt>)

  function EndpointOf(d: Descriptor): Endpoint
    requires IsEndpoint(d)
  {
    Endpoint(d[0], d[2], d[3], Le16(d[4..6]), d[6], if |d| >= 9 then d[7] else 0, if |d| >= 9 then d[8] else 0)
  }

  /** What one descriptor does to the collection. */
  function Item(w: Walked, d: Descriptor): Walked {
    if IsInterface(d) then w.(alts := w.alts + [Alt(d[..9], [], [])])
    else if w.alts == [] then w.(lead := w.lead + d)
    else
      var a := w.alts[|w.alts| - 1];
      var b := if IsEndpoint(d) then a.(eps := a.eps + [EndpointOf(d)]) else a.(extra := a.extra + d);
      w.(alts := w.alts[..|w.alts| - 1] + [b])
  }

  /** The walk from byte `pos`: it stops at a zero length or at a descriptor that is cut off. */
  function Walk(buf: seq<byte>, pos: nat, w: Walked): Walked
    decreases |buf| - pos
  {
    if pos + 2 > |buf| || buf[pos] == 0 || pos + buf[pos] > |buf| then w
    else Walk(buf, pos + buf[pos], Item(w, buf[pos..pos + buf[pos]]))
  }

  function Items(w: Walked, ds: seq<Descriptor>): Walked
    decreases |ds|
  {
    if ds == [] then w else Items(Item(w, ds[0]), ds[1..])
  }

  /** A descriptor whose first byte is its length. */
  predicate Measured(d: Descriptor) {
    |d| >= 2 && d[0] == |d|
  }

  lemma WalkStep(head: seq<byte>, d: Descriptor, tail: seq<byte>, w: Walked)
    requires Measured(d)
    ensures Walk(head + d + tail, |head|, w) == Walk(head + d + tail, |head + d|, Item(w, d))
  {
    var buf := head + d + tail;
    assert buf[|head|] == d[0] && buf[|head|..|head| + |d|] == d;
  }

  /** Walking the bytes of descriptors laid end to end meets exactly those descriptors. */
  lemma {:induction false} WalkMeets(head: seq<byte>, ds: seq<Descriptor>, w: Walked)
    requires forall i :: 0 <= i < |ds| ==> Measured(ds[i])
    ensures Walk(head + Flatten(ds), |head|, w) == Items(w, ds)
    decreases |ds|
  {
    if ds != [] {
      var d, tail := ds[0], Flatten(ds[1..]);
      assert Measured(d);
      WalkStep(head, d, tail, w);
      assert head + (d + tail) == head + d + tail;
      forall i | 0 <= i < |ds[1..]| ensures Measured(ds[1..][i]) {
        assert Measured(ds[i + 1]);
      }
      WalkMeets(head + d, ds[1..], Item(w, d));
    }
  }

  // ---- the reference: sections ---------------------------------------------------------

  /** Everything up to the first interface descriptor. */
  function Lead(ds: seq<Descriptor>): nat
    ensures Lead(ds) <= |ds|
    ensures Lead(ds) < |ds| ==> IsInterface(ds[Lead(ds)])
  {
    if ds == [] || IsInterface(ds[0]) then 0 else 1 + Lead(ds[1..])
  }

  function EndpointsIn(ds: seq<Descriptor>): seq<Endpoint> {
    if ds == [] then []
    else (if IsEndpoint(ds[0]) then [EndpointOf(ds[0])] else []) + EndpointsIn(ds[1..])
  }

  function ExtrasIn(ds: seq<Descriptor>): seq<byte> {
    if ds == [] then []
    else (if IsEndpoint(ds[0]) then [] else ds[0]) + ExtrasIn(ds[1..])
  }

  /** An interface descriptor and what follows it, up to the next one. */
  function AltOf(d: Descriptor, body: seq<Descriptor>): Alt
    requires IsInterface(d)
  {
    Alt(d[..9], EndpointsIn(body), ExtrasIn(body))
  }

  function AltsOf(ds: seq<Descriptor>): seq<Alt>
    decreases |ds|
  {
    if ds == [] then []
    else if !IsInterface(ds[0]) then AltsOf(ds[1..])
    else [AltOf(ds[0], ds[1..][..Lead(ds[1..])])] + AltsOf(ds[1..])
  }

  function Tree(ds: seq<Descriptor>): Walked {
    Walked(Flatten(ds[..Lead(ds)]), AltsOf(ds))
  }

  /** What `ds` adds to the last alternate of `w`, and the alternates it opens. */
  function Joined(w: Walked, ds: seq<Descriptor>): Walked {
    var body := ds[..Lead(ds)];
    if w.alts == [] then Walked(w.lead + Flatten(body), AltsOf(ds))
    else
      var a := w.alts[|w.alts| - 1];
      Walked(w.lead, w.alts[..|w.alts| - 1] + [Alt(a.desc, a.eps + EndpointsIn(body), a.extra + ExtrasIn(body))] + AltsOf(ds))
  }

  lemma {:induction false} ItemsJoin(w: Walked, ds: seq<Descriptor>)
    ensures Items(w, ds) == Joined(w, ds)
    decreases |ds|
  {
    if ds == [] {
      JoinNothing(w);
    } else {
      ItemsJoin(Item(w, ds[0]), ds[1..]);
      if IsInterface(ds[0]) {
        JoinInterface(w, ds);
      } else {
        JoinOther(w, ds);
      }
    }
  }

  lemma NothingAdded(alts: seq<Alt>)
    requires alts != []
    ensures var a := alts[|alts| - 1]; alts[..|alts| - 1] + [Alt(a.desc, a.eps + [], a.extra + [])] == alts
  {
    var a := alts[|alts| - 1];
    assert a.eps + [] == a.eps && a.extra + [] == a.extra;
  }

  lemma JoinNothing(w: Walked)
    ensures Joined(w, []) == w
  {
    if w.alts != [] {
      NothingAdded(w.alts);
      assert w.alts + [] == w.alts;
    } else {
      assert w.lead + [] == w.lead;
    }
  }

  lemma JoinInterface(w: Walked, ds: seq<Descriptor>)
    requires ds != [] && IsInterface(ds[0])
    ensures Joined(Item(w, ds[0]), ds[1..]) == Joined(w, ds)
  {
    var rest := ds[1..];
    var one, more := AltOf(ds[0], rest[..Lead(rest)]), AltsOf(rest);
    assert Lead(ds) == 0 && ds[..0] == [] && AltsOf(ds) == [one] + more;
    OpensAlt(w, ds[0], rest);
    if w.alts == [] {
      assert w.lead + [] == w.lead && [] + [one] + more == [one] + more;
    } else {
      NothingAdded(w.alts);
      Assoc(w.alts, [one], more);
    }
  }

  /** An interface descriptor opens an alternate that takes what follows it. */
  lemma OpensAlt(w: Walked, d: Descriptor, rest: seq<Descriptor>)
    requires IsInterface(d)
    ensures Joined(Item(w, d), rest) == Walked(w.lead, w.alts + [AltOf(d, rest[..Lead(rest)])] + AltsOf(rest))
  {
    var body, v := rest[..Lead(rest)], Item(w, d);
    assert v.alts[..|v.alts| - 1] == w.alts;
    assert [] + EndpointsIn(body) == EndpointsIn(body) && [] + ExtrasIn(body) == ExtrasIn(body);
  }

  lemma AltsAfterOther(ds: seq<Descriptor>)
    requires ds != [] && !IsInterface(ds[0])
    ensures Lead(ds) == 1 + Lead(ds[1..]) && AltsOf(ds) == AltsOf(ds[1..])
    ensures ds[..Lead(ds)] == [ds[0]] + ds[1..][..Lead(ds[1..])]
  {
    ConsPrefix(ds, Lead(ds[1..]));
  }

  lemma ConsPrefix(ds: seq<Descriptor>, n: nat)
    requires ds != [] && n <= |ds[1..]|
    ensures ds[..1 + n] == [ds[0]] + ds[1..][..n]
  {}

  lemma JoinOther(w: Walked, ds: seq<Descriptor>)
    requires ds != [] && !IsInterface(ds[0])
    ensures Joined(Item(w, ds[0]), ds[1..]) == Joined(w, ds)
  {
    var rest := ds[1..];
    var d, body := ds[0], rest[..Lead(rest)];
    AltsAfterOther(ds);
    assert ([d] + body)[1..] == body;
    assert Flatten([d] + body) == d + Flatten(body);
    if w.alts == [] {
      assert w.lead + (d + Flatten(body)) == (w.lead + d) + Flatten(body);
    } else {
      JoinBody(w.alts[|w.alts| - 1], d, body);
      var v := Item(w, d);
      assert v.alts[..|v.alts| - 1] == w.alts[..|w.alts| - 1];
    }
  }

  lemma JoinBody(a: Alt, d: Descriptor, body: seq<Descriptor>)
    ensures var b := if IsEndpoint(d) then a.(eps := a.eps + [EndpointOf(d)]) else a.(extra := a.extra + d);
      && b.eps + EndpointsIn(body) == a.eps + EndpointsIn([d] + body)
      && b.extra + ExtrasIn(body) == a.extra + ExtrasIn([d] + body)
  {
    assert ([d] + body)[1..] == body;
  }

  /** The walk over laid-out descriptors builds the tree of their sections. */
  lemma WalkIsTree(head: seq<byte>, ds: seq<Descriptor>)
    requires forall i :: 0 <= i < |ds| ==> Measured(ds[i])
    ensures Walk(head + Flatten(ds), |head|, Walked([], [])) == Tree(ds)
  {
    WalkMeets(head, ds, Walked([], []));
    ItemsJoin(Walked([], []), ds);
    assert [] + Flatten(ds[..Lead(ds)]) == Flatten(ds[..Lead(ds)]);
  }

  // ---- grouping by interface number ----------------------------------------------------

  ghost predicate Alternates(alts: seq<Alt>) {
    forall i :: 0 <= i < |alts| ==> |alts[i].desc| == 9
  }

  /** bInterfaceNumber. */
  function NumberOf(a: Alt): byte
    requires |a.desc| == 9
  {
    a.desc[2]
  }

  /** What the caller sees: bNumEndpoints is the number of endpoints found. */
  function Shown(a: Alt): Alt
    requires |a.desc| == 9
  {
    a.(desc := a.desc[4 := |a.eps| % 256])
  }

  /** The interface numbers in the order they first appear, no more than the buckets there are. */
  function Numbers(alts: seq<Alt>): seq<byte>
    requires Alternates(alts)
  {
    if alts == [] then []
    else
      var before, n := Numbers(alts[..|alts| - 1]), NumberOf(alts[|alts| - 1]);
      if n in before || |before| >= MAX_BUCKETS then before else before + [n]
  }

  /** The alternates of one interface, in order. */
  function Group(alts: seq<Alt>, n: byte): seq<Alt>
    requires Alternates(alts)
  {
    if alts == [] then []
    else Group(alts[..|alts| - 1], n) + (if NumberOf(alts[|alts| - 1]) == n then [Shown(alts[|alts| - 1])] else [])
  }

  function Interfaces(alts: seq<Alt>): (r: seq<seq<Alt>>)
    requires Alternates(alts)
    ensures |r| == |Numbers(alts)|
  {
    seq(|Numbers(alts)|, k requires 0 <= k < |Numbers(alts)| => Group(alts, Numbers(alts)[k]))
  }

  function Index(nums: seq<byte>, n: byte): (k: int)
    ensures k == -1 <==> n !in nums
    ensures k != -1 ==> 0 <= k < |nums| && nums[k] == n
    ensures forall j :: 0 <= j < k ==> nums[j] != n
  {
    if nums == [] then -1
    else if nums[0] == n then 0
    else if Index(nums[1..], n) == -1 then -1 else Index(nums[1..], n) + 1
  }

  /** No number is listed twice, each has an alternate, and with a bucket to spare no alternate
      is without a group. */
  lemma {:induction false} NumbersAreDistinct(alts: seq<Alt>)
    requires Alternates(alts)
    ensures var nums := Numbers(alts);
      && |nums| <= MAX_BUCKETS
      && (forall i, j :: 0 <= i < j < |nums| ==> nums[i] != nums[j])
      && (|nums| < MAX_BUCKETS ==> forall i :: 0 <= i < |alts| ==> NumberOf(alts[i]) in nums)
  {
    if alts != [] {
      NumbersAreDistinct(alts[..|alts| - 1]);
    }
  }

  lemma {:induction false} NumbersGrow(alts: seq<Alt>, i: nat)
    requires Alternates(alts) && i <= |alts|
    ensures Alternates(alts[..i]) && Numbers(alts[..i]) <= Numbers(alts)
    ensures i < |alts| ==> (NumberOf(alts[i]) in Numbers(alts[..i + 1]) <==> NumberOf(alts[i]) in Numbers(alts))
    decreases |alts| - i
  {
    if i == |alts| {
      assert alts[..i] == alts;
    } else {
      NumbersGrow(alts, i + 1);
      assert alts[..i + 1][..i] == alts[..i];
      if NumberOf(alts[i]) !in Numbers(alts[..i + 1]) {
        FullStays(alts, i + 1);
      }
    }
  }

  lemma {:induction false} FullStays(alts: seq<Alt>, i: nat)
    requires Alternates(alts) && i <= |alts| && |Numbers(alts[..i])| >= MAX_BUCKETS
    ensures Numbers(alts[..i]) == Numbers(alts)
    decreases |alts| - i
  {
    if i == |alts| {
      assert alts[..i] == alts;
    } else {
      assert alts[..i + 1][..i] == alts[..i];
      FullStays(alts, i + 1);
    }
  }

  // ---- parse_config ------------------------------------------------------------------

  datatype Config = NotAConfig | Config(header: seq<byte>, ifaces: seq<seq<Alt>>, extra: seq<byte>)

  function Start(buf: seq<byte>): nat
    requires |buf| >= 9
  {
    if buf[0] != 0 then buf[0] else 9
  }

  lemma {:induction false} WalkedAlternates(buf: seq<byte>, pos: nat, w: Walked)
    requires Alternates(w.alts)
    ensures Alternates(Walk(buf, pos, w).alts)
    decreases |buf| - pos
  {
    if !(pos + 2 > |buf| || buf[pos] == 0 || pos + buf[pos] > |buf|) {
      WalkedAlternates(buf, pos + buf[pos], Item(w, buf[pos..pos + buf[pos]]));
    }
  }

  function Parsed(buf: seq<byte>): Config {
    if |buf| < 9 || buf[1] != DT_CONFIG then NotAConfig
    else
      WalkedAlternates(buf, Start(buf), Walked([], []));
      var w := Walk(buf, Start(buf), Walked([], []));
      Config(buf[..9][4 := |Numbers(w.alts)| % 256], Interfaces(w.alts), w.lead)
  }

  lemma ParsedWalk(buf: seq<byte>, w: Walked)
    requires |buf| >= 9 && buf[0] == 9 && buf[1] == DT_CONFIG && w == Walk(buf, HEADER, Walked([], []))
    ensures Alternates(w.alts)
    ensures Parsed(buf) == Config(buf[..9][4 := |Numbers(w.alts)| % 256], Interfaces(w.alts), w.lead)
  {
    WalkedAlternates(buf, HEADER, Walked([], []));
  }

  method ParseConfig(buf: seq<byte>) returns (cfg: Config)
    ensures cfg == Parsed(buf)
    ensures cfg.NotAConfig? <==> |buf| < 9 || buf[1] != 2
  {
    if |buf| < 9 || buf[1] != DT_CONFIG {
      return NotAConfig;
    }
    var alts, lead := Collect(buf);
    WalkedAlternates(buf, Start(buf), Walked([], []));
    var nums, bucketOf := Buckets(alts);
    var ifaces := Gather(alts, nums, bucketOf);
    cfg := Config(buf[..9][4 := |nums| % 256], ifaces, lead);
  }

  /** The position-advancing loop. */
  method Collect(buf: seq<byte>) returns (alts: seq<Alt>, lead: seq<byte>)
    requires |buf| >= 9
    ensures Walked(lead, alts) == Walk(buf, Start(buf), Walked([], []))
  {
    alts, lead := [], [];
    var pos: nat := if buf[0] != 0 then buf[0] else 9;
    while pos + 2 <= |buf|
      invariant Walk(buf, pos, Walked(lead, alts)) == Walk(buf, Start(buf), Walked([], []))
      decreases |buf| - pos
    {
      var len := buf[pos];
      if len == 0 || pos + len > |buf| {
        return;
      }
      var d, last := buf[pos..pos + len], |alts| - 1;
      if IsInterface(d) {
        alts := alts + [Alt(d[..9], [], [])];
      } else if IsEndpoint(d) && last >= 0 {
        alts := alts[..last] + [alts[last].(eps := alts[last].eps + [EndpointOf(d)])];
      } else if last >= 0 {
        alts := alts[..last] + [alts[last].(extra := alts[last].extra + d)];
      } else {
        lead := lead + d;
      }
      pos := pos + len;
    }
  }

  /** Each alternate's bucket, or -1 when there is none for it. */
  ghost predicate Assigned(alts: seq<Alt>, nums: seq<byte>, bucketOf: seq<int>) {
    && Alternates(alts) && |bucketOf| == |alts| && nums == Numbers(alts)
    && forall i :: 0 <= i < |alts| ==> bucketOf[i] == Index(nums, NumberOf(alts[i]))
  }

  lemma IndexPrefix(a: seq<byte>, b: seq<byte>, n: byte)
    requires a <= b && (n in a || n !in b)
    ensures Index(a, n) == Index(b, n)
  {
    if n in a {
      var k := Index(a, n);
      assert b[k] == n;
      var j := Index(b, n);
      assert j <= k && a[j] == b[j];
    }
  }

  function BucketWhenMet(alts: seq<Alt>, j: nat): int
    requires Alternates(alts) && j < |alts|
  {
    Index(Numbers(alts[..j + 1]), NumberOf(alts[j]))
  }

  lemma BucketStays(alts: seq<Alt>, j: nat)
    requires Alternates(alts) && j < |alts|
    ensures BucketWhenMet(alts, j) == Index(Numbers(alts), NumberOf(alts[j]))
  {
    NumbersGrow(alts, j + 1);
    NumbersGrow(alts, j);
    IndexPrefix(Numbers(alts[..j + 1]), Numbers(alts), NumberOf(alts[j]));
  }

  lemma BucketNow(alts: seq<Alt>, j: nat)
    requires Alternates(alts) && j < |alts|
    ensures var before, n := Numbers(alts[..j]), NumberOf(alts[j]);
      var grows := n !in before && |before| < MAX_BUCKETS;
      && Numbers(alts[..j + 1]) == (if grows then before + [n] else before)
      && BucketWhenMet(alts, j) == (if grows then |before| else Index(before, n))
  {
    assert alts[..j + 1][..j] == alts[..j];
  }

  method Buckets(alts: seq<Alt>) returns (nums: seq<byte>, bucketOf: seq<int>)
    requires Alternates(alts)
    ensures Assigned(alts, nums, bucketOf)
  {
    nums, bucketOf := [], [];
    var i: nat := 0;
    assert alts[..0] == [];
    while i < |alts|
      invariant i <= |alts| && Alternates(alts[..i]) && nums == Numbers(alts[..i]) && |bucketOf| == i
      invariant forall j :: 0 <= j < i ==> bucketOf[j] == BucketWhenMet(alts, j)
    {
      var bucket;
      nums, bucket := OneBucket(alts, i, nums);
      bucketOf := bucketOf + [bucket];
      i := i + 1;
    }
    assert alts[..i] == alts;
    BucketsStay(alts, bucketOf);
  }

  /** The bucket of alternate `i`, a new one if its number is new and there is room. */
  method OneBucket(alts: seq<Alt>, i: nat, before: seq<byte>) returns (nums: seq<byte>, bucket: int)
    requires Alternates(alts) && i < |alts| && Alternates(alts[..i]) && before == Numbers(alts[..i])
    ensures Alternates(alts[..i + 1]) && nums == Numbers(alts[..i + 1]) && bucket == BucketWhenMet(alts, i)
  {
    BucketNow(alts, i);
    var n := NumberOf(alts[i]);
    nums, bucket := before, Index(before, n);
    if bucket < 0 && |nums| < MAX_BUCKETS {
      bucket := |nums|;
      nums := nums + [n];
    }
  }

  lemma BucketsStay(alts: seq<Alt>, bucketOf: seq<int>)
    requires Alternates(alts) && |bucketOf| == |alts|
    requires forall j :: 0 <= j < |alts| ==> bucketOf[j] == BucketWhenMet(alts, j)
    ensures Assigned(alts, Numbers(alts), bucketOf)
  {
    forall j | 0 <= j < |alts| ensures bucketOf[j] == Index(Numbers(alts), NumberOf(alts[j])) {
      BucketStays(alts, j);
    }
  }

  ghost predicate Different(nums: seq<byte>) {
    forall i, j :: 0 <= i < j < |nums| ==> nums[i] != nums[j]
  }

  lemma NumbersDiffer(alts: seq<Alt>)
    requires Alternates(alts)
    ensures Different(Numbers(alts))
  {
    NumbersAreDistinct(alts);
  }

  method Gather(alts: seq<Alt>, nums: seq<byte>, bucketOf: seq<int>) returns (ifaces: seq<seq<Alt>>)
    requires Assigned(alts, nums, bucketOf)
    ensures ifaces == Interfaces(alts)
  {
    ifaces := [];
    NumbersDiffer(alts);
    ghost var all := Interfaces(alts);
    for k := 0 to |nums|
      invariant ifaces == all[..k]
    {
      var own := GatherOne(alts, nums, bucketOf, k);
      assert all[..k + 1] == all[..k] + [own];
      ifaces := ifaces + [own];
    }
  }

  /** The alternates of bucket `k`, copied in order. */
  method GatherOne(alts: seq<Alt>, nums: seq<byte>, bucketOf: seq<int>, k: nat) returns (own: seq<Alt>)
    requires Assigned(alts, nums, bucketOf) && k < |nums|
    requires Different(nums)
    ensures own == Group(alts, nums[k])
  {
    own := [];
    var i: nat := 0;
    while i < |alts|
      invariant i <= |alts| && Alternates(alts[..i]) && own == Group(alts[..i], nums[k])
    {
      assert alts[..i + 1][..i] == alts[..i] && alts[..i + 1][i] == alts[i];
      assert bucketOf[i] == Index(nums, NumberOf(alts[i]));
      if bucketOf[i] == k {
        own := own + [Shown(alts[i])];
      }
      i := i + 1;
    }
    assert alts[..i] == alts;
  }
}
