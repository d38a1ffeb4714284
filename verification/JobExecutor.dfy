/** The distribution of paths over the workers' pipes. */
module JobExecutor {

  // ---- The pipes ----

  /** The number in the name of the pipe that the executor holds as `FIFOS[k]`. */
  function PipeOf(k: nat): nat {
    k + 1
  }

  /** The executor writes the paths of worker `i` to `FIFOS[i + 1]`. */
  function PathPipe(i: nat): nat {
    PipeOf(i + 1)
  }

  /** The pipe worker `i` opens to read from. */
  function ReadPipe(i: nat): nat {
    i + 2
  }

  /** The pipe worker `i` opens to write to. */
  function WritePipe(i: nat): nat {
    i + 1
  }

  /** A worker's paths go to the pipe it reads, and no other worker reads that pipe; but the pipe it reads is the one
      the next worker writes to. */
  lemma {:induction false} PipesMatch(i: nat, j: nat)
    ensures PathPipe(i) == ReadPipe(j) <==> i == j
    ensures WritePipe(i) == ReadPipe(j) <==> i == j + 1
    ensures PipeOf(i) == i + 1 && ReadPipe(j) == j + 2
  {
  }

  // ---- Round robin ----

  /** The paths from number `i` on, each `w`-th. */
  function Share(paths: seq<string>, w: nat, i: nat): (share: seq<string>)
    requires w > 0
    decreases |paths| - i
  {
    if i >= |paths| then [] else [paths[i]] + Share(paths, w, i + w)
  }

  lemma {:induction false} ModBack(x: nat, w: nat)
    requires x >= w > 0
    ensures (x - w) % w == x % w
  {
    var q := x / w;
    assert x == w * q + x % w;
    assert w * q - w == w * (q - 1);
    ModIs(x - w, q - 1, x % w, w);
  }

  lemma {:induction false} ModIs(x: int, q: int, r: nat, w: nat)
    requires r < w && x == w * q + r
    ensures x % w == r
  {
    var q' := x / w;
    assert x == w * q' + x % w;
    MulDifference(w, q, q');
    if q > q' {
      MulPositive(w, q - q');
    } else if q < q' {
      MulPositive(w, q' - q);
    }
  }

  lemma {:induction false} MulDifference(w: nat, a: int, b: int)
    ensures w * (a - b) == w * a - w * b && w * (b - a) == w * b - w * a
  {
  }

  lemma {:induction false} MulPositive(w: nat, d: nat)
    requires d >= 1
    ensures w * d >= w
  {
  }

  /** One more path goes to the share whose turn it is. */
  lemma {:induction false} ShareSnoc(paths: seq<string>, path: string, w: nat, i: nat)
    requires w > 0
    ensures Share(paths + [path], w, i) ==
            Share(paths, w, i) + if i <= |paths| && (|paths| - i) % w == 0 then [path] else []
    decreases |paths| - i
  {
    var longer := paths + [path];
    if i < |paths| {
      ShareSnoc(paths, path, w, i + w);
      if i + w <= |paths| {
        ModBack(|paths| - i, w);
      } else {
        ModIs(|paths| - i, 0, |paths| - i, w);
      }
      assert longer[i] == paths[i];
    } else if i == |paths| {
      assert longer[i] == path;
      assert Share(longer, w, i + w) == [];
    }
  }

  /** Path `i + k * w` is the `k`-th of share `i`. */
  lemma {:induction false} ShareAt(paths: seq<string>, w: nat, i: nat, k: nat)
    requires w > 0
    ensures k < |Share(paths, w, i)| <==> i + k * w < |paths|
    ensures k < |Share(paths, w, i)| ==> Share(paths, w, i)[k] == paths[i + k * w]
    decreases k
  {
    if k > 0 {
      assert k * w == w + (k - 1) * w;
      assert (k - 1) * w >= 0;
      if i < |paths| {
        ShareAt(paths, w, i + w, k - 1);
      }
    }
  }

  /** Path `t` is in the share of worker `t mod w` and there only, at place `t / w`. */
  lemma {:induction false} EachPathOnce(paths: seq<string>, w: nat, t: nat, i: nat, k: nat)
    requires w > 0 && t < |paths| && i < w
    ensures t / w < |Share(paths, w, t % w)| && Share(paths, w, t % w)[t / w] == paths[t]
    ensures i + k * w == t <==> i == t % w && k == t / w
  {
    hide Share;
    Division(t, w);
    ShareAt(paths, w, t % w, t / w);
    if i + k * w == t {
      ModIs(t, k, i, w);
      DivIs(w, k, t / w);
    }
  }

  lemma {:induction false} Division(t: nat, w: nat)
    requires w > 0
    ensures t % w + (t / w) * w == t
  {
  }

  lemma {:induction false} DivIs(w: nat, a: int, b: int)
    requires w > 0 && w * a == w * b
    ensures a == b
  {
    MulDifference(w, a, b);
    if a > b {
      MulPositive(w, a - b);
    } else if a < b {
      MulPositive(w, b - a);
    }
  }

  /** No worker gets more than one path more than another. */
  lemma {:induction false} LoadsAreEven(paths: seq<string>, w: nat, i: nat, j: nat)
    requires i <= j < w
    ensures |Share(paths, w, j)| <= |Share(paths, w, i)| <= |Share(paths, w, j)| + 1
  {
    var a, b := |Share(paths, w, i)|, |Share(paths, w, j)|;
    ShareAt(paths, w, j, a);
    ShareAt(paths, w, i, a);
    assert i + a * w >= |paths|;
    ShareAt(paths, w, j, b);
    ShareAt(paths, w, i, b + 1);
    assert (b + 1) * w == b * w + w;
  }

  /** The messages for the workers, `FIFOS[0]` first; `FIFOS[0]` and those above `FIFOS[w]` get none. */
  ghost predicate Shared(fifos: seq<seq<string>>, paths: seq<string>, w: nat)
    requires w > 0
  {
    && |fifos| == 2 * w
    && (forall k :: 0 <= k < |fifos| ==> fifos[k] == if 1 <= k <= w then Share(paths, w, k - 1) else [])
  }

  lemma {:induction false} SharedNone(fifos: seq<seq<string>>, w: nat)
    requires w > 0 && |fifos| == 2 * w && forall k :: 0 <= k < |fifos| ==> fifos[k] == []
    ensures Shared(fifos, [], w)
  {
  }

  /** The next path, number `i` modulo `w`, goes to worker `i`. */
  lemma {:induction false} SharedNext(fifos: seq<seq<string>>, paths: seq<string>, w: nat, path: string, i: nat)
    requires w > 0 && Shared(fifos, paths, w) && i < w && |paths| % w == i
    ensures Shared(fifos[i + 1 := fifos[i + 1] + [path]], paths + [path], w)
  {
    hide Share;
    var fifos' := fifos[i + 1 := fifos[i + 1] + [path]];
    forall k | 0 <= k < |fifos|
      ensures fifos'[k] == if 1 <= k <= w then Share(paths + [path], w, k - 1) else []
    {
      if 1 <= k <= w {
        ShareTurn(paths, path, w, i, k - 1);
      }
    }
  }

  lemma {:induction false} ShareTurn(paths: seq<string>, path: string, w: nat, i: nat, j: nat)
    requires w > 0 && |paths| % w == i && j < w
    ensures Share(paths + [path], w, j) == Share(paths, w, j) + if j == i then [path] else []
  {
    ShareSnoc(paths, path, w, j);
    TurnOf(|paths|, w, i, j);
  }

  lemma {:induction false} TurnOf(n: nat, w: nat, i: nat, j: nat)
    requires w > 0 && n % w == i && j < w
    ensures j <= n && (n - j) % w == 0 <==> j == i
  {
    var q := n / w;
    assert n == w * q + i;
    if j <= i {
      ModIs(n - j, q, i - j, w);
    } else if j <= n {
      assert w * q - w == w * (q - 1);
      ModIs(n - j, q - 1, i - j + w, w);
    }
  }

  /** One path written to the pipe of worker `i`. */
  method SendPath(path: string, i: nat, numWorkers: nat, fifos: array<seq<string>>, ghost sent: seq<string>)
    requires i < numWorkers && fifos.Length == 2 * numWorkers && |sent| % numWorkers == i
    requires Shared(fifos[..], sent, numWorkers)
    modifies fifos
    ensures Shared(fifos[..], sent + [path], numWorkers)
  {
    ghost var before := fifos[..];
    SharedNext(before, sent, numWorkers, path, i);
    fifos[i + 1] := fifos[i + 1] + [path];
    assert fifos[..] == before[i + 1 := before[i + 1] + [path]];
  }

  /** One round of the outer loop: a path to each worker in turn, or an early end at the last path. */
  method SendRound(paths: seq<string>, numWorkers: nat, j: nat, P0: seq<string>, fifos: array<seq<string>>)
    returns (P: seq<string>)
    requires numWorkers > 0 && fifos.Length == 2 * numWorkers
    requires j < |paths| && j % numWorkers == 0 && P0 == paths[j..]
    requires Shared(fifos[..], paths[..j], numWorkers)
    modifies fifos
    ensures var sent := if j + numWorkers < |paths| then j + numWorkers else |paths|;
            && Shared(fifos[..], paths[..sent], numWorkers)
            && (sent < |paths| ==> P == paths[sent..])
  {
    hide Shared;
    P := P0;
    var i := 0;
    while i < numWorkers
      invariant 0 <= i <= numWorkers && j + i < |paths| && P == paths[j + i..]
      invariant Shared(fifos[..], paths[..j + i], numWorkers)
    {
      if P != [] {
        ModIs(j + i, j / numWorkers, i, numWorkers);
        SendPath(P[0], i, numWorkers, fifos, paths[..j + i]);
        assert paths[..j + i] + [P[0]] == paths[..j + i + 1];
      }
      if |P| == 1 {
        assert paths[..j + i + 1] == paths[..|paths|];
        return P;
      }
      P := P[1..];
      i := i + 1;
    }
  }

  /** The paths in rounds, then the message to stop. The `i` in the jump of `j` is not that of the inner loop, which
      ends with it, but the number of workers. */
  method Distribute(paths: seq<string>, numWorkers: nat, fifos: array<seq<string>>)
    requires numWorkers > 0 && fifos.Length == 2 * numWorkers
    requires forall k :: 0 <= k < fifos.Length ==> fifos[k] == []
    modifies fifos
    ensures forall i :: 0 <= i < numWorkers ==> fifos[i + 1] == Share(paths, numWorkers, i) + ["stop"]
    ensures forall i, k :: 0 <= i < numWorkers && 0 <= k < fifos.Length && ReadPipe(i) == PipeOf(k) ==>
                             fifos[k] == Share(paths, numWorkers, i) + ["stop"]
    ensures forall k :: 0 <= k < fifos.Length && !(1 <= k <= numWorkers) ==> fifos[k] == []
  {
    hide Share;
    var i := numWorkers;
    var P := paths;
    var j := 0;
    SharedNone(fifos[..], numWorkers);
    assert paths[0..] == paths && paths[..0] == [];
    while j < |paths|
      invariant 0 <= j && j % numWorkers == 0
      invariant var sent := if j < |paths| then j else |paths|;
                Shared(fifos[..], paths[..sent], numWorkers) && (j < |paths| ==> P == paths[j..])
      decreases |paths| - j
    {
      ModBack(j + numWorkers, numWorkers);
      P := SendRound(paths, numWorkers, j, P, fifos);
      j := j + i - 1;
      j := j + 1;
    }
    assert paths[..|paths|] == paths;
    ghost var shared := fifos[..];
    for k := 0 to numWorkers
      invariant forall m :: 0 <= m < fifos.Length ==>
                  fifos[m] == if 1 <= m <= k then shared[m] + ["stop"] else shared[m]
    {
      fifos[k + 1] := fifos[k + 1] + ["stop"];
    }
    forall i, k | 0 <= i < numWorkers && 0 <= k < fifos.Length && ReadPipe(i) == PipeOf(k)
      ensures fifos[k] == Share(paths, numWorkers, i) + ["stop"]
    {
      PipesMatch(k - 1, i);
    }
  }
}
