/** The control program of the process gate: it validates the `-process` name,
    loads the eBPF objects, writes the `process_config` record under key 0,
    attaches the four cgroup programs in a fixed order, waits for a signal and
    returns from `main`, running its deferred `Close` calls last-in first-out.
    Every fatal error leaves through `log.Fatal`, which exits at once and runs
    no deferred call. Library calls (memlock removal, object loading, the map
    write, each attach) are given as their outcomes in an `Env`. */
module ProcessGateDriver {
  import opened Bytes
  import opened ProcessFilter

  /** The longest accepted `-process` value, in bytes (Go's `len`). */
  const MAX_NAME_BYTES := 15
  const CONFIG_KEY: U32 := 0

  /** The four cgroup attach types, one per program. */
  datatype Hook = Connect4 | Connect6 | Bind4 | Bind6

  /** The `programs` table, in the order the loop attaches them. */
  const Programs: seq<Hook> := [Connect4, Connect6, Bind4, Bind6]

  datatype Failure =
    | MissingProcessName
    | NameTooLong
    | MemlockFailed
    | LoadFailed
    | ConfigWriteFailed
    | AttachFailed(hook: Hook)

  /** How the process ends: a fatal log call, or a return from `main` after
      the termination signal. */
  datatype Exit = Fatal(reason: Failure) | SignalExit

  /** What the program does to kernel resources, in order. */
  datatype Effect =
    | ObjectsLoaded
    | ConfigWritten(key: U32, config: ProcessConfig)
    | LinkAttached(hook: Hook)
    | LinkClosed(hook: Hook)
    | ObjectsClosed

  /** Outcomes of the library calls: `rlimit.RemoveMemlock`, `loadBpfObjects`,
      the map `Put`, and the successive `link.AttachCgroup` attempts. */
  datatype Env = Env(memlockOk: bool, loadOk: bool, putOk: bool, attachOk: seq<bool>)

  datatype Run = Run(exit: Exit, effects: seq<Effect>)

  /** The zero-initialised `[16]byte` after `copy(dst[:], name)`: the first
      `min(16, |name|)` bytes of the name, then zeros. */
  function PaddedName(name: seq<Byte>): (r: Name16)
    ensures forall i :: 0 <= i < |name| && i < TASK_COMM_LEN ==> r[i] == name[i]
    ensures forall i :: |name| <= i < TASK_COMM_LEN ==> r[i] == 0
  {
    if |name| >= TASK_COMM_LEN then name[..TASK_COMM_LEN]
    else name + seq(TASK_COMM_LEN - |name|, _ => 0)
  }

  /** The `ProcessConfig` value built by the driver. */
  function ConfigFor(name: seq<Byte>, port: Int64): (r: ProcessConfig)
    ensures forall i :: 0 <= i < |name| && i < TASK_COMM_LEN ==> r.processName[i] == name[i]
    ensures forall i :: |name| <= i < TASK_COMM_LEN ==> r.processName[i] == 0
    ensures r.allowedPort == port % 0x1_0000
  {
    ProcessConfig(PaddedName(name), Int64ToU16(port))
  }

  /** Builds the record in place, as `main` does: a zeroed array, `copy` of
      the name bytes, and the `uint16` conversion of the port. */
  method BuildConfig(name: seq<Byte>, port: Int64) returns (config: ProcessConfig)
    ensures config == ConfigFor(name, port)
  {
    var buffer := new Byte[MAX_PROCESS_NAME_LEN](_ => 0);
    var n := if |name| < buffer.Length then |name| else buffer.Length;
    var i := 0;
    while i < n
      invariant 0 <= i <= n
      invariant forall k :: 0 <= k < i ==> buffer[k] == name[k]
      invariant forall k :: i <= k < buffer.Length ==> buffer[k] == 0
    {
      buffer[i] := name[i];
      i := i + 1;
    }
    assert buffer[..] == PaddedName(name);
    config := ProcessConfig(buffer[..], Int64ToU16(port));
  }

  /** The checks on `-process` before anything else is done. */
  function NameError(name: seq<Byte>): (r: Option<Failure>)
    ensures r.None? <==> 0 < |name| <= MAX_NAME_BYTES
    ensures r == Some(MissingProcessName) <==> |name| == 0
    ensures r == Some(NameTooLong) <==> |name| > MAX_NAME_BYTES
  {
    if |name| == 0 then Some(MissingProcessName)
    else if |name| > MAX_NAME_BYTES then Some(NameTooLong)
    else None
  }

  /** How many attach attempts succeed before the first failure. */
  function LeadingSuccesses(outcomes: seq<bool>): (n: nat)
    ensures n <= |outcomes|
    ensures forall i :: 0 <= i < n ==> outcomes[i]
    ensures n < |outcomes| ==> !outcomes[n]
  {
    if outcomes == [] || !outcomes[0] then 0 else 1 + LeadingSuccesses(outcomes[1..])
  }

  function Attachments(hooks: seq<Hook>): (r: seq<Effect>)
  {
    seq(|hooks|, i requires 0 <= i < |hooks| => LinkAttached(hooks[i]))
  }

  function Closings(hooks: seq<Hook>): (r: seq<Effect>)
  {
    seq(|hooks|, i requires 0 <= i < |hooks| => LinkClosed(hooks[i]))
  }

  function Reverse<T>(s: seq<T>): (r: seq<T>)
  {
    if s == [] then [] else [s[|s| - 1]] + Reverse(s[..|s| - 1])
  }

  /** The effects up to the end of the attach loop, after `n` successes. */
  function Setup(name: seq<Byte>, port: Int64, n: nat): (r: seq<Effect>)
    requires n <= |Programs|
  {
    [ObjectsLoaded, ConfigWritten(CONFIG_KEY, ConfigFor(name, port))] + Attachments(Programs[..n])
  }

  /** The specification of one run of `main`. */
  function Trace(name: seq<Byte>, port: Int64, env: Env): (r: Run)
    requires |env.attachOk| == |Programs|
    ensures r.exit == SignalExit
            <==> NameError(name).None? && env.memlockOk && env.loadOk && env.putOk
                 && forall i :: 0 <= i < |Programs| ==> env.attachOk[i]
    ensures r.effects != [] ==> r.effects[0] == ObjectsLoaded
  {
    if NameError(name).Some? then Run(Fatal(NameError(name).value), [])
    else if !env.memlockOk then Run(Fatal(MemlockFailed), [])
    else if !env.loadOk then Run(Fatal(LoadFailed), [])
    else if !env.putOk then Run(Fatal(ConfigWriteFailed), [ObjectsLoaded])
    else
      var n := LeadingSuccesses(env.attachOk);
      if n < |Programs| then Run(Fatal(AttachFailed(Programs[n])), Setup(name, port, n))
      else Run(SignalExit, Setup(name, port, n) + Reverse([ObjectsClosed] + Closings(Programs)))
  }

  /** Runs the deferred calls on return from `main`, newest first. */
  method RunDeferred(stack: seq<Effect>) returns (ran: seq<Effect>)
    ensures ran == Reverse(stack)
  {
    ran := [];
    var pending := stack;
    while pending != []
      invariant Reverse(stack) == ran + Reverse(pending)
      decreases |pending|
    {
      ran := ran + [pending[|pending| - 1]];
      pending := pending[..|pending| - 1];
    }
  }

  /** `main`, from flag values to exit. */
  method RunMain(name: seq<Byte>, port: Int64, env: Env) returns (run: Run)
    requires |env.attachOk| == |Programs|
    ensures run == Trace(name, port, env)
  {
    var nameError := NameError(name);
    if nameError.Some? {
      return Run(Fatal(nameError.value), []);
    }
    if !env.memlockOk {
      return Run(Fatal(MemlockFailed), []);
    }
    if !env.loadOk {
      return Run(Fatal(LoadFailed), []);
    }
    var effects := [ObjectsLoaded];
    var deferred := [ObjectsClosed];
    var config := BuildConfig(name, port);
    if !env.putOk {
      return Run(Fatal(ConfigWriteFailed), effects);
    }
    effects := effects + [ConfigWritten(CONFIG_KEY, config)];
    var k := 0;
    while k < |Programs|
      invariant 0 <= k <= LeadingSuccesses(env.attachOk)
      invariant effects == Setup(name, port, k)
      invariant deferred == [ObjectsClosed] + Closings(Programs[..k])
    {
      if !env.attachOk[k] {
        return Run(Fatal(AttachFailed(Programs[k])), effects);
      }
      assert Programs[..k + 1] == Programs[..k] + [Programs[k]];
      effects := effects + [LinkAttached(Programs[k])];
      deferred := deferred + [LinkClosed(Programs[k])];
      k := k + 1;
    }
    assert Programs[..k] == Programs;
    var teardown := RunDeferred(deferred);
    return Run(SignalExit, effects + teardown);
  }

  /** The hooks attached during a run, in order. */
  function AttachedHooks(effects: seq<Effect>): (r: seq<Hook>)
  {
    if effects == [] then []
    else (if effects[0].LinkAttached? then [effects[0].hook] else []) + AttachedHooks(effects[1..])
  }

  /** The links closed during a run, in order. */
  function ClosedHooks(effects: seq<Effect>): (r: seq<Hook>)
  {
    if effects == [] then []
    else (if effects[0].LinkClosed? then [effects[0].hook] else []) + ClosedHooks(effects[1..])
  }

  lemma {:induction false} HooksOfAppend(a: seq<Effect>, b: seq<Effect>)
    ensures AttachedHooks(a + b) == AttachedHooks(a) + AttachedHooks(b)
    ensures ClosedHooks(a + b) == ClosedHooks(a) + ClosedHooks(b)
  {
    if a != [] {
      assert (a + b)[1..] == a[1..] + b;
      HooksOfAppend(a[1..], b);
    } else {
      assert a + b == b;
    }
  }

  lemma {:induction false} HooksOfAttachments(hooks: seq<Hook>)
    ensures AttachedHooks(Attachments(hooks)) == hooks
    ensures ClosedHooks(Attachments(hooks)) == []
  {
    if hooks != [] {
      assert Attachments(hooks)[1..] == Attachments(hooks[1..]);
      HooksOfAttachments(hooks[1..]);
    }
  }

  lemma {:induction false} HooksOfClosings(hooks: seq<Hook>)
    ensures AttachedHooks(Closings(hooks)) == []
    ensures ClosedHooks(Closings(hooks)) == hooks
  {
    if hooks != [] {
      assert Closings(hooks)[1..] == Closings(hooks[1..]);
      HooksOfClosings(hooks[1..]);
    }
  }

  lemma {:induction false} ReverseOfAppend<T>(a: seq<T>, b: seq<T>)
    ensures Reverse(a + b) == Reverse(b) + Reverse(a)
    decreases |b|
  {
    if b == [] {
      assert a + b == a;
    } else {
      assert (a + b)[..|a + b| - 1] == a + b[..|b| - 1];
      ReverseOfAppend(a, b[..|b| - 1]);
    }
  }

  lemma {:induction false} ReverseOfClosings(hooks: seq<Hook>)
    ensures Reverse(Closings(hooks)) == Closings(Reverse(hooks))
    decreases |hooks|
  {
    if hooks != [] {
      var m := |hooks| - 1;
      assert Closings(hooks)[..m] == Closings(hooks[..m]);
      ReverseOfClosings(hooks[..m]);
      assert Closings(Reverse(hooks)) == [LinkClosed(hooks[m])] + Closings(Reverse(hooks[..m]));
    }
  }

  lemma SetupHooks(name: seq<Byte>, port: Int64, n: nat)
    requires n <= |Programs|
    ensures AttachedHooks(Setup(name, port, n)) == Programs[..n]
    ensures ClosedHooks(Setup(name, port, n)) == []
    ensures ObjectsClosed !in Setup(name, port, n)
  {
    var prefix := [ObjectsLoaded, ConfigWritten(CONFIG_KEY, ConfigFor(name, port))];
    HooksOfAppend(prefix, Attachments(Programs[..n]));
    HooksOfAttachments(Programs[..n]);
    assert AttachedHooks(prefix) == [] && ClosedHooks(prefix) == [];
  }

  /** What the deferred calls do after all four hooks are attached. */
  lemma TeardownHooks()
    ensures Reverse([ObjectsClosed] + Closings(Programs)) == Closings(Reverse(Programs)) + [ObjectsClosed]
    ensures AttachedHooks(Closings(Reverse(Programs)) + [ObjectsClosed]) == []
    ensures ClosedHooks(Closings(Reverse(Programs)) + [ObjectsClosed]) == Reverse(Programs)
  {
    ReverseOfAppend([ObjectsClosed], Closings(Programs));
    ReverseOfClosings(Programs);
    HooksOfAppend(Closings(Reverse(Programs)), [ObjectsClosed]);
    HooksOfClosings(Reverse(Programs));
    assert AttachedHooks([ObjectsClosed]) == [] && ClosedHooks([ObjectsClosed]) == [];
  }

  /** The shape of a run that gets past the map write. */
  lemma TraceAfterWrite(name: seq<Byte>, port: Int64, env: Env)
    requires |env.attachOk| == |Programs|
    requires NameError(name).None? && env.memlockOk && env.loadOk && env.putOk
    ensures var n := LeadingSuccesses(env.attachOk);
      Trace(name, port, env) ==
        if n < |Programs| then Run(Fatal(AttachFailed(Programs[n])), Setup(name, port, n))
        else Run(SignalExit, Setup(name, port, n) + (Closings(Reverse(Programs)) + [ObjectsClosed]))
  {
    TeardownHooks();
  }

  /** An empty or over-long name stops the program before it touches any
      kernel resource. */
  lemma RejectedNameTouchesNothing(name: seq<Byte>, port: Int64, env: Env)
    requires |env.attachOk| == |Programs|
    requires |name| == 0 || |name| > MAX_NAME_BYTES
    ensures Trace(name, port, env).effects == []
    ensures Trace(name, port, env).exit == Fatal(if |name| == 0 then MissingProcessName else NameTooLong)
  {
  }

  /** The record is written, under key 0, before any hook is attached; if the
      write fails, nothing is attached. */
  lemma ConfigWrittenBeforeAttach(name: seq<Byte>, port: Int64, env: Env)
    requires |env.attachOk| == |Programs|
    ensures var effects := Trace(name, port, env).effects;
      forall j :: 0 <= j < |effects| && effects[j].LinkAttached? ==>
        2 <= j && effects[1] == ConfigWritten(CONFIG_KEY, ConfigFor(name, port))
    ensures Trace(name, port, env).exit == Fatal(ConfigWriteFailed) ==> AttachedHooks(Trace(name, port, env).effects) == []
  {
    if NameError(name).None? && env.memlockOk && env.loadOk && env.putOk {
      TraceAfterWrite(name, port, env);
    } else {
      assert AttachedHooks([ObjectsLoaded]) == [];
    }
  }

  /** Hooks are attached in the table's order, and the first failure stops
      the loop: exactly the hooks before it are attached, it names the hook
      that failed, and no later hook is tried. Without a failure all four are
      attached and the program runs until the signal. */
  lemma AttachInOrderUntilFailure(name: seq<Byte>, port: Int64, env: Env)
    requires |env.attachOk| == |Programs|
    requires NameError(name).None? && env.memlockOk && env.loadOk && env.putOk
    ensures var run := Trace(name, port, env);
      var n := LeadingSuccesses(env.attachOk);
      && AttachedHooks(run.effects) == Programs[..n]
      && (n < |Programs| ==> run.exit == Fatal(AttachFailed(Programs[n])))
      && (n == |Programs| <==> run.exit == SignalExit)
  {
    var n := LeadingSuccesses(env.attachOk);
    TraceAfterWrite(name, port, env);
    SetupHooks(name, port, n);
    if n == |Programs| {
      TeardownHooks();
      HooksOfAppend(Setup(name, port, n), Closings(Reverse(Programs)) + [ObjectsClosed]);
    }
  }

  /** The count of leading successes depends only on the outcomes up to and
      including the first failure. */
  lemma {:induction false} LeadingSuccessesPrefix(a: seq<bool>, b: seq<bool>)
    requires |a| == |b| && LeadingSuccesses(a) < |a|
    requires a[..LeadingSuccesses(a) + 1] == b[..LeadingSuccesses(a) + 1]
    ensures LeadingSuccesses(b) == LeadingSuccesses(a)
    decreases |a|
  {
    var n := LeadingSuccesses(a);
    assert b[0] == b[..n + 1][0];
    if a[0] {
      assert LeadingSuccesses(a[1..]) == n - 1;
      assert a[1..][..n] == a[..n + 1][1..];
      assert b[1..][..n] == b[..n + 1][1..];
      LeadingSuccessesPrefix(a[1..], b[1..]);
    }
  }

  /** Once an attach has failed, the outcomes of the later attach attempts
      are never consulted: runs that agree up to the first failure are the
      same run. */
  lemma LaterOutcomesIgnored(name: seq<Byte>, port: Int64, env: Env, env': Env)
    requires |env.attachOk| == |Programs| && |env'.attachOk| == |Programs|
    requires env'.memlockOk == env.memlockOk && env'.loadOk == env.loadOk && env'.putOk == env.putOk
    requires LeadingSuccesses(env.attachOk) < |Programs|
    requires env.attachOk[..LeadingSuccesses(env.attachOk) + 1] == env'.attachOk[..LeadingSuccesses(env.attachOk) + 1]
    ensures Trace(name, port, env') == Trace(name, port, env)
  {
    LeadingSuccessesPrefix(env.attachOk, env'.attachOk);
  }

  /** After the signal, every link is closed, in reverse order of attachment,
      and the loaded objects are closed last. */
  lemma SignalExitClosesInReverse(name: seq<Byte>, port: Int64, env: Env)
    requires |env.attachOk| == |Programs|
    requires Trace(name, port, env).exit == SignalExit
    ensures var effects := Trace(name, port, env).effects;
      && AttachedHooks(effects) == Programs
      && ClosedHooks(effects) == Reverse(AttachedHooks(effects))
      && effects[|effects| - 1] == ObjectsClosed
  {
    var n := LeadingSuccesses(env.attachOk);
    TraceAfterWrite(name, port, env);
    assert n == |Programs|;
    assert Programs[..n] == Programs;
    SetupHooks(name, port, n);
    TeardownHooks();
    HooksOfAppend(Setup(name, port, n), Closings(Reverse(Programs)) + [ObjectsClosed]);
  }

  /** A fatal exit runs none of the deferred calls: on an attach failure the
      links attached before the failing hook are never closed by the program,
      and the loaded objects are not closed either. */
  lemma FatalExitClosesNothing(name: seq<Byte>, port: Int64, env: Env)
    requires |env.attachOk| == |Programs|
    requires Trace(name, port, env).exit.Fatal?
    ensures var run := Trace(name, port, env);
      var attached := AttachedHooks(run.effects);
      && ClosedHooks(run.effects) == []
      && ObjectsClosed !in run.effects
      && (run.exit.reason.AttachFailed? ==>
            |attached| < |Programs| && attached == Programs[..|attached|]
            && run.exit.reason.hook == Programs[|attached|])
  {
    if NameError(name).None? && env.memlockOk && env.loadOk && env.putOk {
      TraceAfterWrite(name, port, env);
      SetupHooks(name, port, LeadingSuccesses(env.attachOk));
    } else {
      assert ClosedHooks([ObjectsLoaded]) == [];
    }
  }

  /** A stored name with no NUL in it is matched by exactly the `comm` that
      spells it and ends there: the padding byte after the name is compared
      too, so a 15-byte name needs `comm[15] == 0`. */
  lemma TrackedExactlyByName(name: seq<Byte>, port: Int64, comm: Name16)
    requires NameError(name).None?
    requires forall i :: 0 <= i < |name| ==> name[i] != 0
    ensures Tracks(Some(ConfigFor(name, port)), comm) <==> comm[..|name|] == name && comm[|name|] == 0
  {
    var stored := ConfigFor(name, port).processName;
    if AgreeThroughNul(comm, stored, MAX_PROCESS_NAME_LEN, 0) {
      NamePrefixMatches(name, stored, comm, |name|);
      assert NulFree(comm, 0, |name|);
    }
    if comm[..|name|] == name && comm[|name|] == 0 {
      forall k | 0 <= k < MAX_PROCESS_NAME_LEN && NulFree(comm, 0, k) ensures comm[k] == stored[k] {
        if k < |name| {
          assert comm[k] == comm[..|name|][k];
        }
      }
    }
  }

  lemma {:induction false} NamePrefixMatches(name: seq<Byte>, stored: Name16, comm: Name16, k: nat)
    requires |name| < TASK_COMM_LEN && k <= |name|
    requires forall i :: 0 <= i < |name| ==> name[i] != 0 && stored[i] == name[i]
    requires AgreeThroughNul(comm, stored, MAX_PROCESS_NAME_LEN, 0)
    ensures comm[..k] == name[..k]
  {
    if k > 0 {
      NamePrefixMatches(name, stored, comm, k - 1);
      assert NulFree(comm, 0, k - 1) by {
        forall j | 0 <= j < k - 1 ensures comm[j] != 0 {
          assert comm[j] == comm[..k - 1][j];
        }
      }
      assert comm[..k] == comm[..k - 1] + [comm[k - 1]];
      assert name[..k] == name[..k - 1] + [name[k - 1]];
    }
  }
}
