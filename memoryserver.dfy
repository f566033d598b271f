/** The coordinator's in-memory job store (server/memoryserver.go): three maps,
    one per job state, changed only by the RPC handlers below. Each handler is one
    atomic step here. In the source most handlers hold the store's single lock
    throughout, but `CreateJob` takes it once per style (inside `createJob`), so
    other handlers may run between two styles, and `GetAllJobs` takes no lock. */
module MemoryStore {
  import opened Wrappers
  import opened GoStrings
  import opened GoPath
  import opened JobTypes

  /** The errors a handler returns to its caller. */
  datatype Error =
    | NotFound(id: string)   // the key is not in the expected map
    | IoFailure              // the style file could not be opened or read
    | UuidFailure            // the random source of the UUID generator failed

  datatype Status = Ok | Err(error: Error)

  // ---------------------------------------------------------------------------
  // Style names

  /** The name under which `LoadStyle` files a style: the last element of the
      file name, without its extension. */
  function StyleName(filename: string): (r: string)
    ensures '/' !in r
  {
    var name := LastElement(filename);
    name[..|name| - |Ext(name)|]
  }

  /** The last element of a path is what follows its final slash. */
  lemma {:induction false} LastElementAfterSlash(dir: string, x: string)
    requires dir == [] || dir[|dir| - 1] == '/'
    requires '/' !in x
    ensures LastElement(dir + x) == x
    decreases |x|
  {
    var p := dir + x;
    if x == [] {
      assert p == dir;
    } else {
      var n := |p|;
      var y := x[..|x| - 1];
      var c := x[|x| - 1];
      assert c in x;
      assert p[n - 1] == c && c != '/';
      assert p[..n - 1] == dir + y;
      assert '/' !in y by {
        forall i | 0 <= i < |y| ensures y[i] != '/' {
          assert y[i] == x[i];
        }
      }
      assert LastElement(p) == LastElement(p[..n - 1]) + [c];
      LastElementAfterSlash(dir, y);
      assert y + [c] == x;
    }
  }

  /** The extension of `base.e` is `.e` when `e` has no dot and no slash. */
  lemma {:induction false} ExtOfSuffix(base: string, e: string)
    requires '.' !in e && '/' !in e
    ensures Ext(base + "." + e) == "." + e
    decreases |e|
  {
    if e == [] {
      assert (base + "." + e) == base + ".";
    } else {
      var p := base + "." + e;
      assert p[..|p| - 1] == base + "." + e[..|e| - 1];
      ExtOfSuffix(base, e[..|e| - 1]);
      assert "." + e[..|e| - 1] + [e[|e| - 1]] == "." + e;
    }
  }

  /** A file name's style name depends only on the part after its final slash. */
  lemma StyleNameOfElement(dir: string, x: string)
    requires dir == [] || dir[|dir| - 1] == '/'
    requires '/' !in x
    ensures StyleName(dir + x) == x[..|x| - |Ext(x)|]
  {
    LastElementAfterSlash(dir, x);
  }

  /** A style file `dir/base.e` is filed under `base`, whatever the directory and
      however many dots `base` holds. */
  lemma StyleNameStripsDirAndExt(dir: string, base: string, e: string)
    requires dir == [] || dir[|dir| - 1] == '/'
    requires '/' !in base && '.' !in e && '/' !in e
    ensures StyleName(dir + base + "." + e) == base
  {
    var x := base + "." + e;
    assert dir + base + "." + e == dir + x;
    assert StyleName(dir + x) == x[..|x| - |Ext(x)|] by {
      StyleNameOfElement(dir, x);
    }
    assert |Ext(x)| == |e| + 1 by {
      ExtOfSuffix(base, e);
    }
    assert x[..|base|] == base;
  }

  /** A style file whose last element has no dot is filed under that element. */
  lemma StyleNameWithoutExt(dir: string, name: string)
    requires dir == [] || dir[|dir| - 1] == '/'
    requires '/' !in name && '.' !in name
    ensures StyleName(dir + name) == name
  {
    StyleNameOfElement(dir, name);
  }

  // ---------------------------------------------------------------------------
  // Views of stored jobs

  /** The job message `RequestJob` builds for a dequeued job: its key's ID and name,
      the style under the style's name and the content under the job's name, both
      labelled JPG. */
  function JobMessage(k: JobKey, job: Job): (r: WireJob)
    ensures r != EmptyJob
    ensures r.style.Some? && r.content.Some?
    ensures r.id == k.id && r.name == k.name
  {
    WireJob(k.id, k.name,
      Some(InputImage(job.styleName, JPG, job.styleImage)),
      Some(InputImage(job.name, JPG, job.contentImage)))
  }

  /** The address of the `i`-th partial result of a job in the web view. */
  function ProgressUrl(k: JobKey, i: nat): string
  {
    "progress/" + k.name + "/" + k.id + "/" + Itoa(i)
  }

  /** How the web view lists a pending job. */
  function PendingView(k: JobKey, job: Job): JobResponse
  {
    JobResponse(
      k.id, k.name, "Pending",
      "style/" + k.name + "/" + k.id,
      "content/" + k.name + "/" + k.id,
      seq(|job.partialResults|, i requires 0 <= i => ProgressUrl(k, i)),
      "result/" + k.name + "/" + k.id)
  }

  /** The progress addresses of a job with `count` partial results, built one per
      partial result in order. */
  method ProgressUrls(k: JobKey, count: nat) returns (urls: seq<string>)
    ensures |urls| == count
    ensures forall i :: 0 <= i < count ==> urls[i] == ProgressUrl(k, i)
  {
    urls := [];
    var i := 0;
    while i < count
      invariant i <= count && |urls| == i
      invariant forall j :: 0 <= j < i ==> urls[j] == ProgressUrl(k, j)
    {
      urls := urls + [ProgressUrl(k, i)];
      i := i + 1;
    }
  }

  /** The web view's list of pending jobs, one entry per key of `keys`. */
  function Listing(keys: seq<JobKey>, p: map<JobKey, Job>): (r: seq<JobResponse>)
    requires forall k :: k in keys ==> k in p
    ensures |r| == |keys|
  {
    seq(|keys|, i requires 0 <= i < |keys| => PendingView(keys[i], p[keys[i]]))
  }

  /** Builds the web view's list of pending jobs, one entry per key of `keys` and
      in that order, each with one progress address per partial result. */
  method ListPending(keys: seq<JobKey>, p: map<JobKey, Job>) returns (jobs: seq<JobResponse>)
    requires forall k :: k in keys ==> k in p
    ensures jobs == Listing(keys, p)
  {
    jobs := [];
    var i := 0;
    while i < |keys|
      invariant i <= |keys| && |jobs| == i
      invariant forall j :: 0 <= j < i ==> jobs[j] == PendingView(keys[j], p[keys[j]])
    {
      var k := keys[i];
      var v := p[k];
      var urls := ProgressUrls(k, |v.partialResults|);
      var view := JobResponse(
        k.id, k.name, "Pending",
        "style/" + k.name + "/" + k.id,
        "content/" + k.name + "/" + k.id,
        urls,
        "result/" + k.name + "/" + k.id);
      assert view == PendingView(k, v);
      jobs := jobs + [view];
      i := i + 1;
    }
  }

  /** When `keys` visits every pending key once and no pending key is flagged
      completed, the listing shows every pending job exactly once: one entry per
      job, each entry the view of a pending job, every pending job's view present,
      and no two entries naming the same ID and name. */
  lemma ListingShowsEachPendingJobOnce(keys: seq<JobKey>, p: map<JobKey, Job>)
    requires ListsEachOnce(keys, p.Keys)
    requires forall k :: k in p ==> !k.completed
    ensures |Listing(keys, p)| == |p|
    ensures forall i :: 0 <= i < |keys| ==>
              var e := Listing(keys, p)[i];
              var k := JobKey(e.id, e.name, false);
              k in p && e == PendingView(k, p[k])
    ensures forall k :: k in p ==> exists i :: 0 <= i < |keys| && Listing(keys, p)[i] == PendingView(k, p[k])
    ensures forall i, j :: 0 <= i < j < |keys| ==>
              Listing(keys, p)[i].id != Listing(keys, p)[j].id || Listing(keys, p)[i].name != Listing(keys, p)[j].name
  {
    ListsEachOnceSize(keys, p.Keys);
    assert |p.Keys| == |p|;
    var r := Listing(keys, p);
    forall i | 0 <= i < |keys|
      ensures JobKey(r[i].id, r[i].name, false) == keys[i]
    {
      assert keys[i] in keys;
    }
    forall k | k in p
      ensures exists i :: 0 <= i < |keys| && r[i] == PendingView(k, p[k])
    {
      assert k in keys;
      var i :| 0 <= i < |keys| && keys[i] == k;
      assert r[i] == PendingView(k, p[k]);
    }
  }

  // ---------------------------------------------------------------------------
  // The store invariant, over the values of the three maps

  /** Every key in any of the three maps. */
  function AllKeys(p: map<JobKey, Job>, ip: map<JobKey, Job>, c: map<JobKey, Job>): set<JobKey>
  {
    p.Keys + ip.Keys + c.Keys
  }

  // The quantifiers of the invariant fire only on these two predicates, never on
  // plain membership, so that the handlers' proofs do not unfold them at every
  // map access.

  /** Key `k` is filed in map `m`. */
  ghost predicate Filed(k: JobKey, m: map<JobKey, Job>)
  {
    k in m
  }

  /** Key `k` is one of `ks`. */
  ghost predicate Listed(k: JobKey, ks: set<JobKey>)
  {
    k in ks
  }

  /** No key of `ks` has ID `id`. */
  ghost predicate FreshId(ks: set<JobKey>, id: string)
  {
    forall k {:trigger Listed(k, ks)} :: Listed(k, ks) ==> k.id != id
  }

  /** A key with a fresh ID is not one of the keys. */
  lemma NotListed(ks: set<JobKey>, id: string, k: JobKey)
    requires FreshId(ks, id) && k.id == id
    ensures k !in ks
  {
    assert Listed(k, ks) ==> k.id != id;
  }

  /** No two keys share an ID. */
  ghost predicate UniqueIds(ks: set<JobKey>)
  {
    forall k1, k2 {:trigger Listed(k1, ks), Listed(k2, ks)} ::
      Listed(k1, ks) && Listed(k2, ks) && k1.id == k2.id ==> k1 == k2
  }

  /** A stored entry agrees with its key: the key's `completed` flag is `done`, the
      job's name is the key's name, and the job has a final result exactly when it
      is done. */
  ghost predicate Entry(k: JobKey, job: Job, done: bool)
  {
    k.completed == done && job.name == k.name && job.result.Some? == done
  }

  /** Every entry of `m` agrees with its key, for the map of done or not-done jobs. */
  ghost predicate Entries(m: map<JobKey, Job>, done: bool)
  {
    forall k {:trigger Filed(k, m)} :: Filed(k, m) ==> Entry(k, m[k], done)
  }

  /** The three maps have no key in common. */
  ghost predicate Disjoint(p: map<JobKey, Job>, ip: map<JobKey, Job>, c: map<JobKey, Job>)
  {
    forall k {:trigger Filed(k, p)} {:trigger Filed(k, ip)} {:trigger Filed(k, c)} ::
      (Filed(k, p) ==> !Filed(k, ip) && !Filed(k, c)) && (Filed(k, ip) ==> !Filed(k, c))
  }

  /** The store's invariant: the maps are pairwise disjoint, an ID appears under at
      most one key in all of them, pending and in-progress entries are not done and
      completed ones are, and the `n` jobs submitted so far are each in exactly one
      map. */
  ghost predicate StoreInv(p: map<JobKey, Job>, ip: map<JobKey, Job>, c: map<JobKey, Job>, n: nat)
  {
    && Disjoint(p, ip, c)
    && UniqueIds(AllKeys(p, ip, c))
    && Entries(p, false) && Entries(ip, false) && Entries(c, true)
    && |p| + |ip| + |c| == n
  }

  lemma EntriesUpdate(m: map<JobKey, Job>, done: bool, k: JobKey, v: Job)
    requires Entries(m, done) && Entry(k, v, done)
    ensures Entries(m[k := v], done)
  {
    var m' := m[k := v];
    forall j | Filed(j, m')
      ensures Entry(j, m'[j], done)
    {
      if j != k {
        assert Filed(j, m);
      }
    }
  }

  lemma EntriesRemove(m: map<JobKey, Job>, done: bool, k: JobKey)
    requires Entries(m, done)
    ensures Entries(m - {k}, done)
  {
    var m' := m - {k};
    forall j | Filed(j, m')
      ensures Entry(j, m'[j], done)
    {
      assert Filed(j, m);
    }
  }

  lemma CardRemove(m: map<JobKey, Job>, k: JobKey)
    requires k in m
    ensures |m - {k}| == |m| - 1
  {
  }

  lemma CardAdd(m: map<JobKey, Job>, k: JobKey, v: Job)
    requires k !in m
    ensures |m[k := v]| == |m| + 1
  {
  }

  /** A key whose ID no key of `ks` uses can join `ks` without a clash. */
  lemma UniqueIdsAdd(ks: set<JobKey>, key: JobKey)
    requires UniqueIds(ks) && FreshId(ks, key.id)
    ensures UniqueIds(ks + {key})
  {
    forall k1, k2 | Listed(k1, ks + {key}) && Listed(k2, ks + {key}) && k1.id == k2.id
      ensures k1 == k2
    {
      assert Listed(k1, ks) ==> k1.id != key.id;
      assert Listed(k2, ks) ==> k2.id != key.id;
      if k1 != key && k2 != key {
        assert Listed(k1, ks) && Listed(k2, ks);
      }
    }
  }

  /** Replacing a key by one with the same ID keeps the IDs unique, and the new
      key was not there before unless it is the old one. */
  lemma UniqueIdsSwap(ks: set<JobKey>, old_: JobKey, new_: JobKey)
    requires UniqueIds(ks) && old_ in ks && new_.id == old_.id
    ensures new_ != old_ ==> new_ !in ks
    ensures UniqueIds(ks - {old_} + {new_})
  {
    assert Listed(old_, ks);
    if new_ in ks {
      assert Listed(new_, ks);
    }
    var ks' := ks - {old_} + {new_};
    forall k1, k2 | Listed(k1, ks') && Listed(k2, ks') && k1.id == k2.id
      ensures k1 == k2
    {
      if k1 != new_ && k2 != new_ {
        assert Listed(k1, ks) && Listed(k2, ks);
      } else if k1 != new_ {
        assert Listed(k1, ks);
      } else if k2 != new_ {
        assert Listed(k2, ks);
      }
    }
  }

  /** The facts the disjointness of three maps gives about one key. */
  lemma DisjointAt(p: map<JobKey, Job>, ip: map<JobKey, Job>, c: map<JobKey, Job>, k: JobKey)
    requires Disjoint(p, ip, c)
    ensures (k in p ==> k !in ip && k !in c) && (k in ip ==> k !in c)
  {
    assert Filed(k, p) || !Filed(k, p);
  }

  /** Filing a key that no map holds in the pending map. */
  lemma AddKey(p: map<JobKey, Job>, ip: map<JobKey, Job>, c: map<JobKey, Job>, key: JobKey, job: Job)
    requires Disjoint(p, ip, c) && key !in AllKeys(p, ip, c)
    ensures Disjoint(p[key := job], ip, c)
    ensures AllKeys(p[key := job], ip, c) == AllKeys(p, ip, c) + {key}
  {
    forall j ensures (Filed(j, p[key := job]) ==> !Filed(j, ip) && !Filed(j, c)) && (Filed(j, ip) ==> !Filed(j, c))
    {
      DisjointAt(p, ip, c, j);
    }
  }

  /** Moving a key from the pending map to the in-progress map. */
  lemma DequeueKey(p: map<JobKey, Job>, ip: map<JobKey, Job>, c: map<JobKey, Job>, k: JobKey, v: Job)
    requires Disjoint(p, ip, c) && k in p
    ensures k !in ip
    ensures Disjoint(p - {k}, ip[k := v], c)
    ensures AllKeys(p - {k}, ip[k := v], c) == AllKeys(p, ip, c)
  {
    DisjointAt(p, ip, c, k);
    forall j ensures (Filed(j, p - {k}) ==> !Filed(j, ip[k := v]) && !Filed(j, c)) && (Filed(j, ip[k := v]) ==> !Filed(j, c))
    {
      DisjointAt(p, ip, c, j);
    }
  }

  /** Moving a key from the in-progress map back to the pending map. */
  lemma RequeueKey(p: map<JobKey, Job>, ip: map<JobKey, Job>, c: map<JobKey, Job>, k: JobKey, v: Job)
    requires Disjoint(p, ip, c) && k in ip
    ensures k !in p
    ensures Disjoint(p[k := v], ip - {k}, c)
    ensures AllKeys(p[k := v], ip - {k}, c) == AllKeys(p, ip, c)
  {
    DisjointAt(p, ip, c, k);
    forall j ensures (Filed(j, p[k := v]) ==> !Filed(j, ip - {k}) && !Filed(j, c)) && (Filed(j, ip - {k}) ==> !Filed(j, c))
    {
      DisjointAt(p, ip, c, j);
    }
  }

  /** Filing an in-progress key as completed under another key no map holds. */
  lemma SwapKey(p: map<JobKey, Job>, ip: map<JobKey, Job>, c: map<JobKey, Job>, k: JobKey, done: JobKey, v: Job)
    requires Disjoint(p, ip, c) && k in ip && done !in AllKeys(p, ip, c)
    ensures Disjoint(p, ip - {k}, c[done := v])
    ensures AllKeys(p, ip - {k}, c[done := v]) == AllKeys(p, ip, c) - {k} + {done}
  {
    DisjointAt(p, ip, c, k);
    forall j ensures (Filed(j, p) ==> !Filed(j, ip - {k}) && !Filed(j, c[done := v])) && (Filed(j, ip - {k}) ==> !Filed(j, c[done := v]))
    {
      DisjointAt(p, ip, c, j);
    }
  }

  /** Updating the job under a key the in-progress map already holds keeps every key. */
  lemma ReplaceJob(p: map<JobKey, Job>, ip: map<JobKey, Job>, c: map<JobKey, Job>, k: JobKey, v: Job)
    requires Disjoint(p, ip, c) && k in ip
    ensures Disjoint(p, ip[k := v], c)
    ensures AllKeys(p, ip[k := v], c) == AllKeys(p, ip, c)
    ensures |ip[k := v]| == |ip|
  {
    assert ip[k := v].Keys == ip.Keys;
    forall j ensures (Filed(j, p) ==> !Filed(j, ip[k := v]) && !Filed(j, c)) && (Filed(j, ip[k := v]) ==> !Filed(j, c))
    {
      DisjointAt(p, ip, c, j);
    }
  }

  /** Filing a new pending job under a key with an unused ID keeps the invariant
      and counts one more submission. */
  lemma InsertPendingKeepsInv(p: map<JobKey, Job>, ip: map<JobKey, Job>, c: map<JobKey, Job>, n: nat,
                              key: JobKey, job: Job)
    requires StoreInv(p, ip, c, n)
    requires FreshId(AllKeys(p, ip, c), key.id)
    requires !key.completed && job.name == key.name && job.result.None?
    ensures key !in p && StoreInv(p[key := job], ip, c, n + 1)
  {
    NotListed(AllKeys(p, ip, c), key.id, key);
    AddKey(p, ip, c, key, job);
    UniqueIdsAdd(AllKeys(p, ip, c), key);
    EntriesUpdate(p, false, key, job);
    CardAdd(p, key, job);
  }

  /** Moving a pending job to in-progress under the same key keeps the invariant;
      the key is not flagged completed. */
  lemma DequeueKeepsInv(p: map<JobKey, Job>, ip: map<JobKey, Job>, c: map<JobKey, Job>, n: nat,
                        k: JobKey, now: int)
    requires StoreInv(p, ip, c, n) && k in p
    ensures !k.completed
    ensures k !in ip && StoreInv(p - {k}, ip[k := p[k].(lastUpdated := now)], c, n)
  {
    var v := p[k].(lastUpdated := now);
    DequeueKey(p, ip, c, k, v);
    assert Filed(k, p);
    EntriesRemove(p, false, k);
    EntriesUpdate(ip, false, k, v);
    CardRemove(p, k);
    CardAdd(ip, k, v);
  }

  /** Appending a partial result to an in-progress job keeps the invariant. */
  lemma ProgressKeepsInv(p: map<JobKey, Job>, ip: map<JobKey, Job>, c: map<JobKey, Job>, n: nat,
                         k: JobKey, image: Bytes, now: int)
    requires StoreInv(p, ip, c, n) && k in ip
    ensures StoreInv(p, ip[k := ip[k].(partialResults := ip[k].partialResults + [image], lastUpdated := now)], c, n)
  {
    var v := ip[k].(partialResults := ip[k].partialResults + [image], lastUpdated := now);
    ReplaceJob(p, ip, c, k, v);
    assert Filed(k, ip);
    EntriesUpdate(ip, false, k, v);
  }

  /** Completing an in-progress job files it under its key with the flag set, which
      no stored job holds yet, and keeps the invariant. */
  lemma CompleteKeepsInv(p: map<JobKey, Job>, ip: map<JobKey, Job>, c: map<JobKey, Job>, n: nat,
                         k: JobKey, image: Bytes, now: int)
    requires StoreInv(p, ip, c, n) && k in ip
    ensures k.(completed := true) !in c
    ensures StoreInv(p, ip - {k}, c[k.(completed := true) := ip[k].(result := Some(image), lastUpdated := now)], n)
  {
    var done := k.(completed := true);
    var v := ip[k].(result := Some(image), lastUpdated := now);
    assert Filed(k, ip);
    UniqueIdsSwap(AllKeys(p, ip, c), k, done);
    SwapKey(p, ip, c, k, done, v);
    EntriesRemove(ip, false, k);
    EntriesUpdate(c, true, done, v);
    CardRemove(ip, k);
    CardAdd(c, done, v);
  }

  /** Failing an in-progress job puts it back in pending under the identical key,
      partial results kept, and keeps the invariant. */
  lemma FailKeepsInv(p: map<JobKey, Job>, ip: map<JobKey, Job>, c: map<JobKey, Job>, n: nat,
                     k: JobKey, now: int)
    requires StoreInv(p, ip, c, n) && k in ip
    ensures k !in p && StoreInv(p[k := ip[k].(lastUpdated := now)], ip - {k}, c, n)
  {
    var v := ip[k].(lastUpdated := now);
    RequeueKey(p, ip, c, k, v);
    assert Filed(k, ip);
    EntriesRemove(ip, false, k);
    EntriesUpdate(p, false, k, v);
    CardRemove(ip, k);
    CardAdd(p, k, v);
  }

  /** Under the invariant a key's `completed` flag tells which maps may hold it. */
  lemma FlagTellsMap(p: map<JobKey, Job>, ip: map<JobKey, Job>, c: map<JobKey, Job>, n: nat, k: JobKey)
    requires StoreInv(p, ip, c, n)
    ensures k in p ==> !k.completed && p[k].result.None?
    ensures k in ip ==> !k.completed && ip[k].result.None?
    ensures k in c ==> k.completed && c[k].result.Some?
  {
    assert Filed(k, p) || Filed(k, ip) || Filed(k, c) || k !in AllKeys(p, ip, c);
  }

  /** Under the invariant two stored keys with one ID are the same key, a key is
      filed in one map only, and a lookup with the flag cleared never finds a
      completed job. */
  lemma AtMostOnePartition(p: map<JobKey, Job>, ip: map<JobKey, Job>, c: map<JobKey, Job>, n: nat,
                           k1: JobKey, k2: JobKey)
    requires StoreInv(p, ip, c, n)
    requires k1 in AllKeys(p, ip, c) && k2 in AllKeys(p, ip, c) && k1.id == k2.id
    ensures k1 == k2
    ensures !(k1 in p && k1 in ip) && !(k1 in p && k1 in c) && !(k1 in ip && k1 in c)
    ensures k1.(completed := false) !in c
  {
    assert Listed(k1, AllKeys(p, ip, c)) && Listed(k2, AllKeys(p, ip, c));
    DisjointAt(p, ip, c, k1);
    var k0 := k1.(completed := false);
    if k0 in c {
      assert Filed(k0, c);
    }
  }

  // ---------------------------------------------------------------------------
  // Submitting a job for every style

  /** `xs` visits every element of `s` exactly once, as Go's iteration over a
      map's keys does in some order. */
  ghost predicate ListsEachOnce<T(!new)>(xs: seq<T>, s: set<T>)
  {
    && (forall x :: x in xs <==> x in s)
    && (forall i, j :: 0 <= i < j < |xs| ==> xs[i] != xs[j])
  }

  /** A list that visits every element of a set once is as long as the set. */
  lemma {:induction false} ListsEachOnceSize<T(!new)>(xs: seq<T>, s: set<T>)
    requires ListsEachOnce(xs, s)
    ensures |xs| == |s|
    decreases |xs|
  {
    if xs == [] {
      assert forall y :: y in s ==> y in xs;
      assert s == {};
    } else {
      var n := |xs| - 1;
      var x := xs[n];
      var ys := xs[..n];
      var t := s - {x};
      assert x in s by {
        assert x in xs;
      }
      forall y ensures y in ys <==> y in t
      {
        if y in ys {
          var i :| 0 <= i < n && ys[i] == y;
          assert xs[i] == y && xs[i] != xs[n];
        }
        if y in t {
          assert y in xs;
          var i :| 0 <= i < |xs| && xs[i] == y;
          assert i != n;
          assert ys[i] == y;
        }
      }
      assert forall i, j :: 0 <= i < j < |ys| ==> ys[i] != ys[j] by {
        forall i, j | 0 <= i < j < |ys| ensures ys[i] != ys[j] {
          assert ys[i] == xs[i] && ys[j] == xs[j];
        }
      }
      ListsEachOnceSize(ys, t);
      assert |t| == |s| - 1;
    }
  }

  /** Every name in `order` is a loaded style. */
  predicate AllLoaded(order: seq<string>, styles: map<string, Bytes>)
  {
    forall j :: 0 <= j < |order| ==> order[j] in styles
  }

  /** UUID draws that clash neither with the keys `ks` nor with each other. */
  ghost predicate FreshDraws(ks: set<JobKey>, ids: seq<Option<string>>)
  {
    && (forall i :: 0 <= i < |ids| && ids[i].Some? ==> FreshId(ks, ids[i].value))
    && (forall i, j :: 0 <= i < j < |ids| && ids[i].Some? && ids[j].Some? ==> ids[i].value != ids[j].value)
  }

  /** How many draws succeed before the first failure. */
  function Drawn(ids: seq<Option<string>>): (m: nat)
    ensures m <= |ids|
    ensures forall j :: 0 <= j < m ==> ids[j].Some?
    ensures m < |ids| ==> ids[m].None?
  {
    if ids == [] || ids[0].None? then 0 else 1 + Drawn(ids[1..])
  }

  lemma DrawnStops(ids: seq<Option<string>>, i: nat)
    requires i <= Drawn(ids) && i < |ids| && ids[i].None?
    ensures Drawn(ids) == i
  {
  }

  lemma DrawnContinues(ids: seq<Option<string>>, i: nat)
    requires i <= Drawn(ids) && i < |ids| && ids[i].Some?
    ensures i + 1 <= Drawn(ids)
  {
  }

  lemma DrawnAll(ids: seq<Option<string>>)
    requires |ids| <= Drawn(ids)
    ensures Drawn(ids) == |ids|
  {
  }

  /** The key the store files the job of the `j`-th visited style under. */
  function DrawnKey(ids: seq<Option<string>>, name: string, j: nat): JobKey
    requires j < |ids| && ids[j].Some?
  {
    JobKey(ids[j].value, name, false)
  }

  /** The pending map after `createJob` has run for the first `m` styles of `order`,
      the `j`-th filed under the `j`-th drawn ID. */
  function Created(p: map<JobKey, Job>, name: string, order: seq<string>, styles: map<string, Bytes>,
                   content: Bytes, ids: seq<Option<string>>, now: int, m: nat): map<JobKey, Job>
    requires m <= |order| && m <= |ids| && m <= Drawn(ids)
    requires AllLoaded(order, styles)
  {
    if m == 0 then p
    else
      Created(p, name, order, styles, content, ids, now, m - 1)
        [DrawnKey(ids, name, m - 1) := NewJob(name, order[m - 1], styles[order[m - 1]], content, now)]
  }

  /** Every key of `Created` is an old key or a drawn one. */
  lemma {:induction false} CreatedKeys(p: map<JobKey, Job>, name: string, order: seq<string>, styles: map<string, Bytes>,
                                       content: Bytes, ids: seq<Option<string>>, now: int, m: nat, k: JobKey)
    requires m <= |order| && m <= |ids| && m <= Drawn(ids)
    requires AllLoaded(order, styles)
    requires k in Created(p, name, order, styles, content, ids, now, m)
    ensures k in p || exists j :: 0 <= j < m && k == DrawnKey(ids, name, j)
  {
    if m > 0 && k != DrawnKey(ids, name, m - 1) {
      CreatedKeys(p, name, order, styles, content, ids, now, m - 1, k);
    }
  }

  /** The `i`-th drawn ID clashes with no key the store holds after `i` styles. */
  lemma CreatedIdFresh(p: map<JobKey, Job>, ip: map<JobKey, Job>, c: map<JobKey, Job>, name: string,
                       order: seq<string>, styles: map<string, Bytes>, content: Bytes,
                       ids: seq<Option<string>>, now: int, i: nat)
    requires i < |order| && i < |ids| && i <= Drawn(ids) && ids[i].Some?
    requires AllLoaded(order, styles)
    requires FreshDraws(AllKeys(p, ip, c), ids)
    ensures FreshId(AllKeys(Created(p, name, order, styles, content, ids, now, i), ip, c), ids[i].value)
  {
    var ks := AllKeys(Created(p, name, order, styles, content, ids, now, i), ip, c);
    var ks0 := AllKeys(p, ip, c);
    assert FreshId(ks0, ids[i].value);
    forall k | Listed(k, ks)
      ensures k.id != ids[i].value
    {
      assert Listed(k, ks0) ==> k.id != ids[i].value;
      if k in Created(p, name, order, styles, content, ids, now, i) {
        CreatedKeys(p, name, order, styles, content, ids, now, i, k);
      }
    }
  }

  /** With fresh draws, a drawn key is never an old key. */
  lemma DrawnKeyIsNew(p: map<JobKey, Job>, ks: set<JobKey>, name: string, ids: seq<Option<string>>, j: nat)
    requires j < |ids| && ids[j].Some?
    requires p.Keys <= ks && FreshDraws(ks, ids)
    ensures DrawnKey(ids, name, j) !in p
  {
    NotListed(ks, ids[j].value, DrawnKey(ids, name, j));
  }

  /** With fresh draws, `Created` keeps every old entry. */
  lemma {:induction false} CreatedKeepsOld(p: map<JobKey, Job>, ks: set<JobKey>, name: string,
                                           order: seq<string>, styles: map<string, Bytes>, content: Bytes,
                                           ids: seq<Option<string>>, now: int, m: nat, k: JobKey)
    requires m <= |order| && m <= |ids| && m <= Drawn(ids)
    requires AllLoaded(order, styles)
    requires p.Keys <= ks && FreshDraws(ks, ids)
    requires k in p
    ensures var r := Created(p, name, order, styles, content, ids, now, m);
            k in r && r[k] == p[k]
  {
    if m > 0 {
      CreatedKeepsOld(p, ks, name, order, styles, content, ids, now, m - 1, k);
      DrawnKeyIsNew(p, ks, name, ids, m - 1);
    }
  }

  /** With fresh, distinct draws, `Created` holds the job of the `j`-th visited
      style under the `j`-th drawn key. */
  lemma {:induction false} CreatedHoldsDrawn(p: map<JobKey, Job>, name: string,
                                             order: seq<string>, styles: map<string, Bytes>, content: Bytes,
                                             ids: seq<Option<string>>, now: int, m: nat, j: nat)
    requires m <= |order| && m <= |ids| && m <= Drawn(ids)
    requires AllLoaded(order, styles)
    requires forall a, b :: 0 <= a < b < |ids| && ids[a].Some? && ids[b].Some? ==> ids[a].value != ids[b].value
    requires j < m
    ensures var r := Created(p, name, order, styles, content, ids, now, m);
            DrawnKey(ids, name, j) in r && r[DrawnKey(ids, name, j)] == NewJob(name, order[j], styles[order[j]], content, now)
  {
    if j < m - 1 {
      CreatedHoldsDrawn(p, name, order, styles, content, ids, now, m - 1, j);
      assert ids[j].value != ids[m - 1].value;
    }
  }

  /** With fresh, distinct draws, `Created` grows by one entry per visited style. */
  lemma {:induction false} CreatedSize(p: map<JobKey, Job>, ks: set<JobKey>, name: string,
                                       order: seq<string>, styles: map<string, Bytes>, content: Bytes,
                                       ids: seq<Option<string>>, now: int, m: nat)
    requires m <= |order| && m <= |ids| && m <= Drawn(ids)
    requires AllLoaded(order, styles)
    requires p.Keys <= ks && FreshDraws(ks, ids)
    ensures |Created(p, name, order, styles, content, ids, now, m)| == |p| + m
  {
    if m > 0 {
      CreatedSize(p, ks, name, order, styles, content, ids, now, m - 1);
      var prev := Created(p, name, order, styles, content, ids, now, m - 1);
      var key := DrawnKey(ids, name, m - 1);
      assert key !in prev by {
        if key in prev {
          CreatedKeys(p, name, order, styles, content, ids, now, m - 1, key);
          DrawnKeyIsNew(p, ks, name, ids, m - 1);
        }
      }
      CardAdd(prev, key, NewJob(name, order[m - 1], styles[order[m - 1]], content, now));
    }
  }

  /** When every draw succeeds, each loaded style has exactly one new pending job
      under `name`, and no two of them share a key. */
  lemma CreateJobOnePerStyle(p: map<JobKey, Job>, ks: set<JobKey>, name: string,
                             order: seq<string>, styles: map<string, Bytes>, content: Bytes,
                             ids: seq<Option<string>>, now: int)
    requires ListsEachOnce(order, styles.Keys) && |ids| == |order| && Drawn(ids) == |order|
    requires p.Keys <= ks && FreshDraws(ks, ids)
    ensures var r := Created(p, name, order, styles, content, ids, now, |order|);
            && |r| == |p| + |styles|
            && (forall k :: k in p ==> k in r && r[k] == p[k])
            && (forall s :: s in styles ==>
                  exists k :: k in r && k !in p && k.name == name && !k.completed
                              && r[k] == NewJob(name, s, styles[s], content, now))
            && (forall k :: k in r && k !in p ==>
                  k.name == name && !k.completed
                  && exists s :: s in styles && r[k] == NewJob(name, s, styles[s], content, now))
  {
    assert AllLoaded(order, styles) by {
      forall j | 0 <= j < |order| ensures order[j] in styles {
        assert order[j] in order;
      }
    }
    CreatedSize(p, ks, name, order, styles, content, ids, now, |order|);
    var r := Created(p, name, order, styles, content, ids, now, |order|);
    forall s | s in styles
      ensures exists k :: k in r && k !in p && k.name == name && !k.completed
                          && r[k] == NewJob(name, s, styles[s], content, now)
    {
      var j :| 0 <= j < |order| && order[j] == s;
      CreatedHoldsDrawn(p, name, order, styles, content, ids, now, |order|, j);
      DrawnKeyIsNew(p, ks, name, ids, j);
      assert DrawnKey(ids, name, j) in r;
    }
    forall k | k in p
      ensures k in r && r[k] == p[k]
    {
      CreatedKeepsOld(p, ks, name, order, styles, content, ids, now, |order|, k);
    }
    forall k | k in r && k !in p
      ensures k.name == name && !k.completed
              && exists s :: s in styles && r[k] == NewJob(name, s, styles[s], content, now)
    {
      CreatedKeys(p, name, order, styles, content, ids, now, |order|, k);
      var j :| 0 <= j < |order| && k == DrawnKey(ids, name, j);
      CreatedHoldsDrawn(p, name, order, styles, content, ids, now, |order|, j);
      assert order[j] in styles && r[k] == NewJob(name, order[j], styles[order[j]], content, now);
    }
    assert |styles| == |order| by {
      ListsEachOnceSize(order, styles.Keys);
      assert |styles.Keys| == |styles|;
    }
  }

  // ---------------------------------------------------------------------------
  // The store

  class MemoryServer {
    var pending: map<JobKey, Job>
    var inProgress: map<JobKey, Job>
    var completed: map<JobKey, Job>
    var styles: map<string, Bytes>
    const outputDir: string
    /** How many jobs have been submitted so far. */
    ghost var submitted: nat

    /** An ID no stored job uses. */
    ghost predicate IsFreshId(id: string)
      reads this
    {
      FreshId(AllKeys(pending, inProgress, completed), id)
    }

    ghost predicate Valid()
      reads this
    {
      StoreInv(pending, inProgress, completed, submitted)
    }

    /** NewMemoryServer: an empty store writing under `outputDir`. */
    constructor (outputDir: string)
      ensures Valid()
      ensures pending == map[] && inProgress == map[] && completed == map[]
      ensures styles == map[] && this.outputDir == outputDir && submitted == 0
    {
      pending, inProgress, completed := map[], map[], map[];
      styles := map[];
      this.outputDir := outputDir;
      submitted := 0;
    }

    /** LoadStyle: files the bytes read from `filename` (None when opening or
        reading the file fails) under the file's style name. */
    method LoadStyle(filename: string, contents: Option<Bytes>) returns (st: Status)
      requires Valid()
      modifies this`styles
      ensures Valid()
      ensures contents.None? ==> st == Err(IoFailure) && styles == old(styles)
      ensures contents.Some? ==> st == Ok && styles == old(styles)[StyleName(filename) := contents.value]
    {
      if contents.None? {
        return Err(IoFailure);
      }
      styles := styles[StyleName(filename) := contents.value];
      st := Ok;
    }

    /** createJob: files one new pending job under the key (id, name, false). `id`
        is the UUID the generator returns, None when the generator fails. */
    method CreateOne(name: string, styleName: string, styleImage: Bytes, contentImage: Bytes,
                     id: Option<string>, now: int) returns (st: Status)
      requires Valid()
      requires id.Some? ==> IsFreshId(id.value)
      modifies this`pending, this`submitted
      ensures Valid()
      ensures id.None? ==> st == Err(UuidFailure) && pending == old(pending)
      ensures id.Some? ==> st == Ok && JobKey(id.value, name, false) !in old(pending)
      ensures id.Some? ==> pending == old(pending)[JobKey(id.value, name, false) := NewJob(name, styleName, styleImage, contentImage, now)]
    {
      if id.None? {
        return Err(UuidFailure);
      }
      var key := JobKey(id.value, name, false);
      InsertPendingKeepsInv(pending, inProgress, completed, submitted, key, NewJob(name, styleName, styleImage, contentImage, now));
      pending := pending[key := NewJob(name, styleName, styleImage, contentImage, now)];
      submitted := submitted + 1;
      st := Ok;
    }

    /** CreateJob: one pending job per loaded style, visiting every style once
        in `order` (Go's map iteration order, which the caller chooses here) and
        stopping at the first failed ID draw. `ids[i]` is the draw for the i-th
        style visited. When every draw succeeds, the pending map grows by one
        entry per style. */
    method CreateJob(name: string, content: Bytes, order: seq<string>, ids: seq<Option<string>>, now: int)
      returns (st: Status)
      requires Valid()
      requires ListsEachOnce(order, styles.Keys)
      requires |ids| == |order| && FreshDraws(AllKeys(pending, inProgress, completed), ids)
      modifies this`pending, this`submitted
      ensures Valid()
      ensures var m := Drawn(ids);
              && (st == Ok <==> m == |order|)
              && (st != Ok ==> st == Err(UuidFailure))
              && pending == Created(old(pending), name, order, styles, content, ids, now, m)
              && submitted == old(submitted) + m
      ensures st == Ok ==> |pending| == |old(pending)| + |styles|
    {
      assert AllLoaded(order, styles) by {
        forall j | 0 <= j < |order| ensures order[j] in styles {
          assert order[j] in order;
        }
      }
      ghost var ks := AllKeys(pending, inProgress, completed);
      ghost var p0 := pending;
      st := CreateEach(name, content, order, ids, now);
      if st == Ok {
        CreateJobOnePerStyle(p0, ks, name, order, styles, content, ids, now);
      }
    }

    /** The loop of CreateJob: `createJob` for each style of `order` in turn,
        until a draw fails. */
    method CreateEach(name: string, content: Bytes, order: seq<string>, ids: seq<Option<string>>, now: int)
      returns (st: Status)
      requires Valid()
      requires AllLoaded(order, styles)
      requires |ids| == |order| && FreshDraws(AllKeys(pending, inProgress, completed), ids)
      modifies this`pending, this`submitted
      ensures Valid()
      ensures var m := Drawn(ids);
              && (st == Ok <==> m == |order|)
              && (st != Ok ==> st == Err(UuidFailure))
              && pending == Created(old(pending), name, order, styles, content, ids, now, m)
              && submitted == old(submitted) + m
    {
      ghost var p0 := pending;
      assert FreshDraws(AllKeys(p0, inProgress, completed), ids);
      var i := 0;
      while i < |order|
        invariant i <= |order| && i <= Drawn(ids)
        invariant Valid()
        invariant pending == Created(p0, name, order, styles, content, ids, now, i)
        invariant submitted == old(submitted) + i
      {
        if ids[i].Some? {
          CreatedIdFresh(p0, inProgress, completed, name, order, styles, content, ids, now, i);
        }
        st := CreateOne(name, order[i], styles[order[i]], content, ids[i], now);
        if st.Err? {
          DrawnStops(ids, i);
          return;
        }
        DrawnContinues(ids, i);
        i := i + 1;
      }
      DrawnAll(ids);
      st := Ok;
    }

    /** CreateFullJob: exactly one pending job, for the style the caller supplies. */
    method CreateFullJob(name: string, styleTitle: string, styleImage: Bytes, contentImage: Bytes,
                         id: Option<string>, now: int) returns (st: Status)
      requires Valid()
      requires id.Some? ==> IsFreshId(id.value)
      modifies this`pending, this`submitted
      ensures Valid()
      ensures id.None? ==> st == Err(UuidFailure) && pending == old(pending)
      ensures id.Some? ==> st == Ok && JobKey(id.value, name, false) !in old(pending)
      ensures id.Some? ==> pending == old(pending)[JobKey(id.value, name, false) := NewJob(name, styleTitle, styleImage, contentImage, now)]
    {
      st := CreateOne(name, styleTitle, styleImage, contentImage, id, now);
    }

    /** RequestJob: moves one arbitrary pending job to in-progress under the same
        key and describes it to the worker; the empty job message when nothing is
        pending. */
    method RequestJob(now: int) returns (reply: WireJob)
      requires Valid()
      modifies this`pending, this`inProgress
      ensures Valid()
      ensures old(pending) == map[] ==> reply == EmptyJob && pending == old(pending) && inProgress == old(inProgress)
      ensures old(pending) != map[] ==>
                var k := JobKey(reply.id, reply.name, false);
                && k in old(pending)
                && reply == JobMessage(k, old(pending)[k])
                && pending == old(pending) - {k}
                && inProgress == old(inProgress)[k := old(pending)[k].(lastUpdated := now)]
    {
      if pending == map[] {
        return EmptyJob;
      }
      var k :| k in pending;
      var v := pending[k].(lastUpdated := now);
      DequeueKeepsInv(pending, inProgress, completed, submitted, k, now);
      inProgress := inProgress[k := v];
      pending := pending - {k};
      reply := JobMessage(k, v);
    }

    /** ProgressReport: appends a checkpoint image to an in-progress job, which
        stays in progress. `progressCount` names the artifact file only. */
    method ProgressReport(id: string, name: string, progressCount: int32, image: Bytes, now: int)
      returns (st: Status)
      requires Valid()
      modifies this`inProgress
      ensures Valid()
      ensures JobKey(id, name, false) !in old(inProgress) ==> st == Err(NotFound(id)) && inProgress == old(inProgress)
      ensures JobKey(id, name, false) in old(inProgress) ==>
                var key := JobKey(id, name, false);
                var v := old(inProgress)[key];
                && st == Ok
                && inProgress == old(inProgress)[key := v.(partialResults := v.partialResults + [image], lastUpdated := now)]
    {
      var key := JobKey(id, name, false);
      if key !in inProgress {
        return Err(NotFound(id));
      }
      var v := inProgress[key];
      ProgressKeepsInv(pending, inProgress, completed, submitted, key, image, now);
      inProgress := inProgress[key := v.(partialResults := v.partialResults + [image], lastUpdated := now)];
      st := Ok;
    }

    /** CompleteJob: sets the final result of an in-progress job and files it as
        completed under the same ID and name with the flag set. */
    method CompleteJob(id: string, name: string, image: Bytes, now: int) returns (st: Status)
      requires Valid()
      modifies this`inProgress, this`completed
      ensures Valid()
      ensures JobKey(id, name, false) !in old(inProgress) ==>
                st == Err(NotFound(id)) && inProgress == old(inProgress) && completed == old(completed)
      ensures JobKey(id, name, false) in old(inProgress) ==>
                var key := JobKey(id, name, false);
                && st == Ok
                && JobKey(id, name, true) !in old(completed)
                && inProgress == old(inProgress) - {key}
                && completed == old(completed)[JobKey(id, name, true) := old(inProgress)[key].(result := Some(image), lastUpdated := now)]
    {
      var key := JobKey(id, name, false);
      if key !in inProgress {
        return Err(NotFound(id));
      }
      var v := inProgress[key].(result := Some(image), lastUpdated := now);
      var done := JobKey(id, name, true);
      CompleteKeepsInv(pending, inProgress, completed, submitted, key, image, now);
      inProgress := inProgress - {key};
      completed := completed[done := v];
      st := Ok;
    }

    /** FailJob: puts an in-progress job back in pending under the identical key,
        partial results kept. */
    method FailJob(id: string, name: string, now: int) returns (st: Status)
      requires Valid()
      modifies this`pending, this`inProgress
      ensures Valid()
      ensures JobKey(id, name, false) !in old(inProgress) ==>
                st == Err(NotFound(id)) && inProgress == old(inProgress) && pending == old(pending)
      ensures JobKey(id, name, false) in old(inProgress) ==>
                var key := JobKey(id, name, false);
                && st == Ok
                && inProgress == old(inProgress) - {key}
                && pending == old(pending)[key := old(inProgress)[key].(lastUpdated := now)]
    {
      var key := JobKey(id, name, false);
      if key !in inProgress {
        return Err(NotFound(id));
      }
      var v := inProgress[key].(lastUpdated := now);
      FailKeepsInv(pending, inProgress, completed, submitted, key, now);
      pending := pending[key := v];
      inProgress := inProgress - {key};
      st := Ok;
    }

    /** GetAllJobs: lists every pending job, visiting the keys in `keys` (Go's
        map iteration order, which the caller chooses here), with the live size of
        each map. */
    method GetAllJobs(keys: seq<JobKey>) returns (r: AllJobsResponse)
      requires Valid()
      requires ListsEachOnce(keys, pending.Keys)
      ensures r.stats == JobStats(|pending|, |inProgress|, |completed|)
      ensures r.stats.pending + r.stats.inProgress + r.stats.completed == submitted
      ensures r.jobs == Listing(keys, pending)
    {
      var jobs := ListPending(keys, pending);
      r := AllJobsResponse(jobs, JobStats(|pending|, |inProgress|, |completed|));
    }
  }
}
