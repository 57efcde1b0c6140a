/** Vocabulary shared by the two queue-family resolvers: the family list a
    physical device reports, the Vulkan queue-flag bits, the "unset" sentinel,
    first-match and last-match searches over a family list, and the
    order-keeping duplicate removal behind `unique()`. */
module Families {

  /** A `VkQueueFlags` bitmask, held in a 32-bit Java `int`. */
  type QueueFlags = bv32

  /** `VkQueueFlagBits` values (Vulkan 1.0, "Queue Family Properties"). */
  const GRAPHICS_BIT: QueueFlags := 1
  const COMPUTE_BIT: QueueFlags := 2
  const TRANSFER_BIT: QueueFlags := 4

  /** `VK_QUEUE_FAMILY_IGNORED`, used by both resolvers as "role not set yet". */
  const IGNORED: int := -1

  /** One queue family as the resolvers see it: the `queueFlags` reported by
      `vkGetPhysicalDeviceQueueFamilyProperties`, and the answer of
      `vkGetPhysicalDeviceSurfaceSupportKHR` for this family and the window surface. */
  datatype Fam = Fam(flags: QueueFlags, present: bool)

  /** The physical device handed to a resolver, reduced to its queue
      families (in the order the device reports them). */
  datatype PhysicalDevice = PhysicalDevice(families: seq<Fam>)

  datatype Option<T> = None | Some(value: T)

  /** The outcome of a call that may throw a `RuntimeException`. */
  datatype Result<T, E> = Ok(value: T) | Err(error: E)

  predicate IsGraphics(f: Fam) { (f.flags & GRAPHICS_BIT) != 0 }
  predicate IsCompute(f: Fam) { (f.flags & COMPUTE_BIT) != 0 }
  predicate IsTransfer(f: Fam) { (f.flags & TRANSFER_BIT) != 0 }
  predicate IsPresent(f: Fam) { f.present }

  /** A transfer family that can do neither graphics nor compute work, tested
      with one mask as both resolvers write it. */
  predicate IsDedicatedTransfer(f: Fam) {
    IsTransfer(f) && (f.flags & (GRAPHICS_BIT | COMPUTE_BIT)) == 0
  }

  lemma DedicatedTransferBits(f: Fam)
    ensures IsDedicatedTransfer(f) <==> IsTransfer(f) && !IsGraphics(f) && !IsCompute(f)
  {
  }

  /** Some family of `s` satisfies `P`. */
  predicate Any(s: seq<Fam>, P: Fam -> bool) {
    exists j :: 0 <= j < |s| && P(s[j])
  }

  /** The lowest index in `s` whose family satisfies `P`, or `IGNORED`. */
  function FirstWhere(s: seq<Fam>, P: Fam -> bool): (r: int)
    ensures r == IGNORED <==> !Any(s, P)
    ensures r != IGNORED ==> 0 <= r < |s| && P(s[r]) && forall j :: 0 <= j < r ==> !P(s[j])
  {
    if s == [] then IGNORED
    else
      var init := s[..|s| - 1];
      var r := FirstWhere(init, P);
      assert forall j :: 0 <= j < |init| ==> init[j] == s[j];
      if r != IGNORED then r
      else if P(s[|s| - 1]) then |s| - 1
      else IGNORED
  }

  /** The highest index in `s` whose family satisfies `P`, or `IGNORED`. */
  function LastWhere(s: seq<Fam>, P: Fam -> bool): (r: int)
    ensures r == IGNORED <==> !Any(s, P)
    ensures r != IGNORED ==> 0 <= r < |s| && P(s[r]) && forall j :: r < j < |s| ==> !P(s[j])
  {
    if s == [] then IGNORED
    else if P(s[|s| - 1]) then |s| - 1
    else
      var init := s[..|s| - 1];
      assert forall j :: 0 <= j < |init| ==> init[j] == s[j];
      LastWhere(init, P)
  }

  /** `x` when it is set, `otherwise` when `x` is `IGNORED`. */
  function OrElse(x: int, otherwise: int): int {
    if x != IGNORED then x else otherwise
  }

  /** Searching one more family: the first match is kept, the last match moves on. */
  lemma WhereAppend(s: seq<Fam>, f: Fam, P: Fam -> bool)
    ensures FirstWhere(s + [f], P) == OrElse(FirstWhere(s, P), if P(f) then |s| else IGNORED)
    ensures LastWhere(s + [f], P) == if P(f) then |s| else LastWhere(s, P)
  {
  }

  /** Once a prefix holds a match, the first match of the prefix is the first
      match of the whole list. */
  lemma FirstWhereOfPrefix(s: seq<Fam>, n: nat, P: Fam -> bool)
    requires n <= |s|
    requires Any(s[..n], P)
    ensures Any(s, P)
    ensures FirstWhere(s[..n], P) == FirstWhere(s, P)
  {
  }

  /** A whole list is a prefix of itself. */
  lemma WholePrefix(s: seq<Fam>)
    ensures s[..|s|] == s
  {
  }

  predicate NoDuplicates(s: seq<int>) {
    forall i, j :: 0 <= i < j < |s| ==> s[i] != s[j]
  }

  /** Position of the first occurrence of `x` in `s`. */
  function IndexOf(s: seq<int>, x: int): (r: nat)
    requires x in s
    ensures r < |s| && s[r] == x && x !in s[..r]
  {
    if s[0] == x then 0
    else
      var r := IndexOf(s[1..], x);
      assert s[..r + 1] == [s[0]] + s[1..][..r];
      r + 1
  }

  /** First occurrences do not move when more elements are appended. */
  lemma {:induction false} IndexOfAppend(s: seq<int>, y: int)
    ensures forall x :: x in s ==> IndexOf(s + [y], x) == IndexOf(s, x)
  {
    forall x | x in s
      ensures IndexOf(s + [y], x) == IndexOf(s, x)
    {
      var i, k := IndexOf(s, x), IndexOf(s + [y], x);
      assert forall m :: 0 <= m < |s| ==> (s + [y])[m] == s[m];
      assert forall m :: 0 <= m < i ==> s[..i][m] == s[m];
      assert forall m :: 0 <= m < k ==> (s + [y])[..k][m] == (s + [y])[m];
    }
  }

  /** `IntStream.distinct()` on a sequential stream: every value once, at the
      place of its first occurrence. The three ensures clauses determine the
      result uniquely. */
  function Distinct(s: seq<int>): (r: seq<int>)
    ensures NoDuplicates(r) && |r| <= |s|
    ensures forall x :: x in r <==> x in s
    ensures forall i, j :: 0 <= i < j < |r| ==> IndexOf(s, r[i]) < IndexOf(s, r[j])
  {
    if s == [] then []
    else
      var init, last := s[..|s| - 1], s[|s| - 1];
      assert s == init + [last];
      var rest := Distinct(init);
      IndexOfAppend(init, last);
      if last in init then rest
      else
        assert IndexOf(s, last) == |s| - 1;
        rest + [last]
  }
}
