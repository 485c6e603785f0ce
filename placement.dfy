/**
 * `CloudPlacement` (tests/test7/simplePlacement.py): a tag-based placement
 * policy. Its initial allocation walks the application's service keys in
 * reversed order, picks the tag at the service's position, looks up the
 * devices carrying that tag and issues one deploy per requested replica,
 * each deploy targeting every device found.
 */
module Placement {
  import opened Wrappers
  import opened Topology

  /**
   * The `tag` argument as Python sees it: a plain string (the default is
   * `""`) or a list of strings, one per service position.
   */
  datatype TagArg = TagText(text: string) | TagList(tags: seq<string>)

  /** `len(self.tag)`. */
  function TagLen(tag: TagArg): nat
  {
    match tag
    case TagText(s) => |s|
    case TagList(ts) => |ts|
  }

  /**
   * `self.tag[idx]`: the idx-th character (as a one-character string) of a
   * plain string, or the idx-th element of a list; None is Python's
   * IndexError.
   */
  function TagAt(tag: TagArg, idx: nat): (r: Option<string>)
    ensures r.Some? <==> idx < TagLen(tag)
    ensures r.Some? && tag.TagList? ==> r.value == tag.tags[idx]
    ensures r.Some? && tag.TagText? ==> |r.value| == 1 && r.value[0] == tag.text[idx]
  {
    match tag
    case TagText(s) => if idx < |s| then Some([s[idx]]) else None
    case TagList(ts) => if idx < |ts| then Some(ts[idx]) else None
  }

  /** One `deploy_module(app_name, module, services[module], id_cluster)` call. */
  datatype Deploy = Deploy(service: string, cluster: seq<int>)

  /**
   * What an allocation does: the deploys issued, in order, and the service
   * position at which it stopped with an IndexError, if it did. Deploys
   * issued before the error have already taken effect.
   */
  datatype Allocation = Allocation(deploys: seq<Deploy>, failedAt: Option<nat>)

  /** The deploys of `for rep in range(0, n)`: none when n <= 0. */
  function Replicas(service: string, cluster: seq<int>, n: int): (r: seq<Deploy>)
    ensures |r| == if n > 0 then n else 0
    ensures forall k :: 0 <= k < |r| ==> r[k] == Deploy(service, cluster)
  {
    if n <= 0 then [] else Replicas(service, cluster, n - 1) + [Deploy(service, cluster)]
  }

  /** The list `s` after Python's `list.reverse()`. */
  function Reversed<T>(s: seq<T>): (r: seq<T>)
  {
    seq(|s|, k requires 0 <= k < |s| => s[|s| - 1 - k])
  }

  /**
   * The allocation over `order` (the already reversed service list): each
   * position is visited in turn; a service in `scale` reads the tag at its
   * position, which fails past the tag's end, and deploys its replicas onto
   * the devices carrying that tag.
   */
  function Allocate(order: seq<string>, tag: TagArg, scale: map<string, int>,
                    topo: seq<Device>): Allocation
    decreases |order|
  {
    if |order| == 0 then Allocation([], None)
    else
      var idx := |order| - 1;
      var prev := Allocate(order[..idx], tag, scale, topo);
      var service := order[idx];
      if prev.failedAt.Some? || service !in scale then prev
      else match TagAt(tag, idx)
        case None => Allocation(prev.deploys, Some(idx))
        case Some(t) =>
          Allocation(prev.deploys + Replicas(service, FindIDs(topo, t), scale[service]), None)
  }

  /** Number of deploys of `service`. */
  function CountDeploys(ds: seq<Deploy>, service: string): nat
  {
    if |ds| == 0 then 0
    else CountDeploys(ds[..|ds| - 1], service) + (if ds[|ds| - 1].service == service then 1 else 0)
  }

  lemma {:induction false} CountDeploysAppend(a: seq<Deploy>, b: seq<Deploy>, service: string)
    ensures CountDeploys(a + b, service) == CountDeploys(a, service) + CountDeploys(b, service)
    decreases |b|
  {
    if |b| == 0 {
      assert a + b == a;
    } else {
      assert (a + b)[..|a + b| - 1] == a + b[..|b| - 1];
      CountDeploysAppend(a, b[..|b| - 1], service);
    }
  }

  lemma {:induction false} CountReplicas(m: string, cluster: seq<int>, n: int, service: string)
    ensures CountDeploys(Replicas(m, cluster, n), service) ==
            if m == service && n > 0 then n else 0
    decreases if n > 0 then n else 0
  {
    if n > 0 {
      var r := Replicas(m, cluster, n);
      assert r[..|r| - 1] == Replicas(m, cluster, n - 1);
      CountReplicas(m, cluster, n - 1, service);
    }
  }

  /** Once a position has failed, later positions change nothing. */
  lemma {:induction false} AllocateStopsAtFailure(order: seq<string>, i: nat, tag: TagArg,
                                                  scale: map<string, int>, topo: seq<Device>)
    requires i <= |order|
    requires Allocate(order[..i], tag, scale, topo).failedAt.Some?
    ensures Allocate(order, tag, scale, topo) == Allocate(order[..i], tag, scale, topo)
    decreases |order|
  {
    if i < |order| {
      assert order[..|order| - 1][..i] == order[..i];
      AllocateStopsAtFailure(order[..|order| - 1], i, tag, scale, topo);
    } else {
      assert order[..i] == order;
    }
  }

  /**
   * The allocation fails exactly when some scaled service sits at a position
   * past the end of the tag, and then at the first such position; unscaled
   * services never read the tag.
   */
  lemma {:induction false} AllocateFailsIffTagTooShort(order: seq<string>, tag: TagArg,
                                                       scale: map<string, int>, topo: seq<Device>)
    ensures var a := Allocate(order, tag, scale, topo);
            a.failedAt.Some? <==>
              exists k :: 0 <= k < |order| && order[k] in scale && k >= TagLen(tag)
    ensures var a := Allocate(order, tag, scale, topo);
            a.failedAt.Some? ==>
              var k := a.failedAt.value;
              k < |order| && order[k] in scale && k >= TagLen(tag) &&
              forall j :: 0 <= j < k && order[j] in scale ==> j < TagLen(tag)
    decreases |order|
  {
    if |order| > 0 {
      var idx := |order| - 1;
      var prefix := order[..idx];
      AllocateFailsIffTagTooShort(prefix, tag, scale, topo);
      assert forall k :: 0 <= k < idx ==> prefix[k] == order[k];
    }
  }

  /**
   * Unscaled positions never read the tag: two tags that agree on every
   * scaled position give the same allocation.
   */
  lemma {:induction false} AllocateReadsScaledTagsOnly(order: seq<string>, tag1: TagArg, tag2: TagArg,
                                                       scale: map<string, int>, topo: seq<Device>)
    requires forall k :: 0 <= k < |order| && order[k] in scale ==> TagAt(tag1, k) == TagAt(tag2, k)
    ensures Allocate(order, tag1, scale, topo) == Allocate(order, tag2, scale, topo)
    decreases |order|
  {
    if |order| > 0 {
      var idx := |order| - 1;
      assert forall k :: 0 <= k < idx ==> order[..idx][k] == order[k];
      AllocateReadsScaledTagsOnly(order[..idx], tag1, tag2, scale, topo);
    }
  }

  /**
   * Where every deploy comes from: `pos[p]` is the position of deploy p's
   * service in the reversed list. Positions never decrease (deploys come in
   * list order, a service's replicas together), only scaled services are
   * deployed, and the target is the whole device list carrying the tag at
   * that position, unscaled positions counted. Deploys issued before a
   * failure all come from earlier positions.
   */
  lemma {:induction false} AllocateTrace(order: seq<string>, tag: TagArg,
                                         scale: map<string, int>, topo: seq<Device>)
    returns (pos: seq<nat>)
    ensures var a := Allocate(order, tag, scale, topo);
            |pos| == |a.deploys| &&
            (forall p :: 0 <= p < |pos| ==>
               pos[p] < |order| && order[pos[p]] in scale && pos[p] < TagLen(tag) &&
               a.deploys[p] == Deploy(order[pos[p]], FindIDs(topo, TagAt(tag, pos[p]).value))) &&
            (forall p, q :: 0 <= p < q < |pos| ==> pos[p] <= pos[q]) &&
            (a.failedAt.Some? ==> forall p :: 0 <= p < |pos| ==> pos[p] < a.failedAt.value)
    decreases |order|
  {
    if |order| == 0 {
      pos := [];
    } else {
      var idx := |order| - 1;
      var prev := Allocate(order[..idx], tag, scale, topo);
      pos := AllocateTrace(order[..idx], tag, scale, topo);
      assert forall k :: 0 <= k < idx ==> order[..idx][k] == order[k];
      var service := order[idx];
      if prev.failedAt.None? && service in scale && TagAt(tag, idx).Some? {
        var reps := Replicas(service, FindIDs(topo, TagAt(tag, idx).value), scale[service]);
        pos := pos + seq(|reps|, _ => idx);
      }
    }
  }

  /**
   * When no service is listed twice and the allocation succeeds, a scaled
   * service receives exactly `scale[service]` deploys (none for a count
   * below one) and any other service none.
   */
  lemma {:induction false} AllocateReplicaCount(order: seq<string>, tag: TagArg,
                                                scale: map<string, int>, topo: seq<Device>,
                                                service: string)
    requires forall i, j :: 0 <= i < j < |order| ==> order[i] != order[j]
    requires Allocate(order, tag, scale, topo).failedAt.None?
    ensures CountDeploys(Allocate(order, tag, scale, topo).deploys, service) ==
            if service in order && service in scale && scale[service] > 0 then scale[service] else 0
    decreases |order|
  {
    if |order| > 0 {
      var idx := |order| - 1;
      var prefix := order[..idx];
      var m := order[idx];
      AllocateStep(order, tag, scale, topo);
      var prev := Allocate(prefix, tag, scale, topo);
      assert forall i :: 0 <= i < idx ==> prefix[i] == order[i];
      AllocateReplicaCount(prefix, tag, scale, topo, service);
      var added := 0;
      if m in scale {
        var r := Replicas(m, FindIDs(topo, TagAt(tag, idx).value), scale[m]);
        CountDeploysAppend(prev.deploys, r, service);
        CountReplicas(m, FindIDs(topo, TagAt(tag, idx).value), scale[m], service);
        added := CountDeploys(r, service);
      }
      if service in prefix {
        var k :| 0 <= k < idx && prefix[k] == service;
        assert order[k] == service;
      }
      assert order == prefix + [m];
      ReplicaCountStep(prefix, m, scale, service, CountDeploys(prev.deploys, service), added);
    }
  }

  /** The count for the first n services plus the count the next one adds is the count for all n + 1. */
  lemma ReplicaCountStep(prefix: seq<string>, m: string, scale: map<string, int>, service: string, before: nat, added: nat)
    requires service in prefix ==> m != service
    requires before == if service in prefix && service in scale && scale[service] > 0 then scale[service] else 0
    requires added == if m in scale && m == service && scale[m] > 0 then scale[m] else 0
    ensures before + added ==
            if service in prefix + [m] && service in scale && scale[service] > 0 then scale[service] else 0
  {
    assert service in prefix + [m] <==> service in prefix || service == m;
  }

  /** A successful allocation extends the allocation of its prefix by the last service's replicas, if it is scaled. */
  lemma AllocateStep(order: seq<string>, tag: TagArg, scale: map<string, int>, topo: seq<Device>)
    requires |order| > 0 && Allocate(order, tag, scale, topo).failedAt.None?
    ensures var idx := |order| - 1;
            var prev := Allocate(order[..idx], tag, scale, topo);
            var m := order[idx];
            prev.failedAt.None? && (m in scale ==> TagAt(tag, idx).Some?) &&
            Allocate(order, tag, scale, topo).deploys ==
              prev.deploys + (if m in scale then Replicas(m, FindIDs(topo, TagAt(tag, idx).value), scale[m]) else [])
  {
    var idx := |order| - 1;
    var prev := Allocate(order[..idx], tag, scale, topo);
    if order[idx] !in scale {
      assert prev.deploys + [] == prev.deploys;
    }
  }

  /**
   * The policy object. `__init__` stores `name` and `tag`; the library's
   * `scaleService` stores the replica map. Allocation reads them and changes
   * none of them.
   */
  class CloudPlacement {
    var name: string
    var tag: TagArg
    var scaleServices: map<string, int>

    constructor (name: string, tag: TagArg)
      ensures this.name == name && this.tag == tag && scaleServices == map[]
    {
      this.name := name;
      this.tag := tag;
      scaleServices := map[];
    }

    method ScaleService(scale: map<string, int>)
      modifies this
      ensures scaleServices == scale && name == old(name) && tag == old(tag)
    {
      scaleServices := scale;
    }

    /**
     * `initial_allocation` for an application whose `services.keys()` come
     * in the order `serviceKeys`, on the devices `topo`.
     */
    method InitialAllocation(serviceKeys: seq<string>, topo: seq<Device>)
      returns (deploys: seq<Deploy>, failedAt: Option<nat>)
      ensures Allocation(deploys, failedAt) == Allocate(Reversed(serviceKeys), tag, scaleServices, topo)
    {
      var servicesList := new string[|serviceKeys|](i requires 0 <= i < |serviceKeys| => serviceKeys[i]);
      assert servicesList[..] == serviceKeys;
      ReverseInPlace(servicesList);
      ghost var order := servicesList[..];
      deploys, failedAt := [], None;
      var idx := 0;
      while idx < servicesList.Length
        invariant 0 <= idx <= servicesList.Length
        invariant servicesList[..] == order
        invariant Allocate(order[..idx], tag, scaleServices, topo) == Allocation(deploys, None)
      {
        var service := servicesList[idx];
        assert order[..idx + 1][..idx] == order[..idx];
        if service in scaleServices {
          var value := TagAt(tag, idx);
          if value.None? {
            failedAt := Some(idx);
            AllocateStopsAtFailure(order, idx + 1, tag, scaleServices, topo);
            return;
          }
          var idCluster := FindIDs(topo, value.value);
          ghost var before := deploys;
          var rep := 0;
          while rep < scaleServices[service]
            invariant 0 <= rep && (rep <= scaleServices[service] || rep == 0)
            invariant deploys == before + Replicas(service, idCluster, rep)
          {
            deploys := deploys + [Deploy(service, idCluster)];
            rep := rep + 1;
          }
        }
        idx := idx + 1;
      }
      assert order[..idx] == order;
    }
  }

  /** Python's in-place `list.reverse()`. */
  method ReverseInPlace(a: array<string>)
    modifies a
    ensures a[..] == Reversed(old(a[..]))
  {
    var n, i := a.Length, 0;
    while i < n / 2
      invariant 0 <= i <= n / 2
      invariant forall k :: 0 <= k < i ==> a[k] == old(a[n - 1 - k]) && a[n - 1 - k] == old(a[k])
      invariant forall k :: i <= k < n - i ==> a[k] == old(a[k])
    {
      a[i], a[n - 1 - i] := a[n - 1 - i], a[i];
      i := i + 1;
    }
    assert a[..] == Reversed(old(a[..]));
  }
}
