/** The process gate run by the kernel at the cgroup connect4/connect6 and
    bind4/bind6 hooks. Each hook reads the single `process_config` record,
    compares the caller's 16-byte `comm` with the configured name, and for the
    tracked process allows only the configured port. A verdict of 1 lets the
    socket operation proceed; 0 rejects it and emits one "BLOCKING" trace line. */
module ProcessFilter {
  import opened Bytes
  import opened ByteOrder

  const TASK_COMM_LEN := 16
  /** The name field has the same width as a task's `comm`. */
  const MAX_PROCESS_NAME_LEN := TASK_COMM_LEN

  /** A fixed-width `char[16]` buffer: a process name or a task's `comm`. */
  type Name16 = s: seq<Byte> | |s| == TASK_COMM_LEN witness [0, 0, 0, 0, 0, 0, 0, 0, 0, 0, 0, 0, 0, 0, 0, 0]

  /** `struct process_config`, the value stored under key 0. */
  datatype ProcessConfig = ProcessConfig(processName: Name16, allowedPort: U16)

  /** The `bpf_printk` lines, with the host-order port they print. */
  datatype TraceEvent = BlockingConnect(port: U16) | BlockingBind(port: U16)

  /** The program's return value and the trace lines it emitted. */
  datatype Decision = Decision(ret: int, trace: seq<TraceEvent>)

  const Allow := Decision(1, [])

  /** No NUL occurs in `s` at indices [lo, hi). */
  predicate NulFree(s: seq<Byte>, lo: int, hi: int)
    requires 0 <= lo <= hi <= |s|
  {
    forall j :: lo <= j < hi ==> s[j] != 0
  }

  /** The reference meaning of `str_equal(s1, s2, len)` from index `i` on:
      `s1` and `s2` agree at every index `k < len` that no NUL of `s1` precedes
      (so up to and including the first NUL of `s1`, or at all indices when
      `s1` has none). */
  predicate AgreeThroughNul(s1: seq<Byte>, s2: seq<Byte>, len: int, i: nat)
    requires len <= |s1| && len <= |s2|
  {
    forall k :: i <= k < len && NulFree(s1, i, k) ==> s1[k] == s2[k]
  }

  /** The loop of `str_equal` from index `i` on, as a recursive function. */
  function StrEqualFrom(s1: seq<Byte>, s2: seq<Byte>, len: int, i: nat): (r: int)
    requires len <= |s1| && len <= |s2|
    ensures r == 0 || r == 1
    decreases len - i
  {
    if i >= len then 1
    else if s1[i] != s2[i] then 0
    else if s1[i] == 0 then 1
    else StrEqualFrom(s1, s2, len, i + 1)
  }

  /** `str_equal(s1, s2, len)`: 1 exactly when the two buffers agree up to
      and including the first NUL of `s1` (or over all `len` bytes without
      one), else 0. */
  function StrEqual(s1: seq<Byte>, s2: seq<Byte>, len: int): (r: int)
    requires len <= |s1| && len <= |s2|
    ensures r == 0 || r == 1
    ensures r == 1 <==> AgreeThroughNul(s1, s2, len, 0)
  {
    StrEqualFromMeaning(s1, s2, len, 0);
    StrEqualFrom(s1, s2, len, 0)
  }

  lemma {:induction false} StrEqualFromMeaning(s1: seq<Byte>, s2: seq<Byte>, len: int, i: nat)
    requires len <= |s1| && len <= |s2|
    ensures StrEqualFrom(s1, s2, len, i) == 1 <==> AgreeThroughNul(s1, s2, len, i)
    decreases len - i
  {
    if i >= len {
    } else if s1[i] != s2[i] {
      assert NulFree(s1, i, i);
    } else if s1[i] == 0 {
      forall k | i <= k < len && NulFree(s1, i, k) ensures s1[k] == s2[k] {
      }
    } else {
      StrEqualFromMeaning(s1, s2, len, i + 1);
      if AgreeThroughNul(s1, s2, len, i + 1) {
        forall k | i <= k < len && NulFree(s1, i, k) ensures s1[k] == s2[k] {
          if k > i { assert NulFree(s1, i + 1, k); }
        }
      }
      if AgreeThroughNul(s1, s2, len, i) {
        forall k | i + 1 <= k < len && NulFree(s1, i + 1, k) ensures s1[k] == s2[k] {
          assert NulFree(s1, i, k);
        }
      }
    }
  }

  /** Bytes after the first NUL of `s1` are never looked at: two pairs of
      buffers that agree up to and including a NUL of `s1` at `n` compare the
      same. */
  lemma {:induction false} StrEqualIgnoresAfterNul(s1: seq<Byte>, s2: seq<Byte>, t1: seq<Byte>, t2: seq<Byte>,
                                                   len: int, n: nat, i: nat)
    requires len <= |s1| && len <= |s2| && len <= |t1| && len <= |t2|
    requires n < len && s1[n] == 0 && i <= n
    requires s1[..n + 1] == t1[..n + 1] && s2[..n + 1] == t2[..n + 1]
    ensures StrEqualFrom(s1, s2, len, i) == StrEqualFrom(t1, t2, len, i)
    decreases len - i
  {
    assert s1[i] == s1[..n + 1][i] == t1[i];
    assert s2[i] == s2[..n + 1][i] == t2[i];
    if s1[i] != s2[i] || s1[i] == 0 {
    } else {
      StrEqualIgnoresAfterNul(s1, s2, t1, t2, len, n, i + 1);
    }
  }

  /** The comparison does not depend on which buffer is passed first. */
  lemma {:induction false} StrEqualSymmetric(s1: seq<Byte>, s2: seq<Byte>, len: int, i: nat)
    requires len <= |s1| && len <= |s2|
    ensures StrEqualFrom(s1, s2, len, i) == StrEqualFrom(s2, s1, len, i)
    decreases len - i
  {
    if i < len && s1[i] == s2[i] && s1[i] != 0 {
      StrEqualSymmetric(s1, s2, len, i + 1);
    }
  }

  /** The `for` loop of `str_equal`, as the C code runs it. */
  method StrEqualLoop(s1: seq<Byte>, s2: seq<Byte>, len: int) returns (r: int)
    requires len <= |s1| && len <= |s2|
    ensures r == StrEqual(s1, s2, len)
    ensures r == 1 <==> AgreeThroughNul(s1, s2, len, 0)
  {
    var i := 0;
    while i < len
      invariant 0 <= i
      invariant StrEqualFrom(s1, s2, len, i) == StrEqual(s1, s2, len)
      decreases len - i
    {
      if s1[i] != s2[i] {
        return 0;
      }
      if s1[i] == 0 {
        return 1;
      }
      i := i + 1;
    }
    return 1;
  }

  /** `bpf_ntohs(ctx->user_port)`: `user_port` is a `__u32`; the 16-bit swap
      keeps its low half. */
  function Ntohs(userPort: U32): (r: U16)
  {
    Swap16(Low16(userPort))
  }

  /** The `user_port` a socket call for host-order port `p` presents. */
  function UserPortFor(p: U16): (r: U32) { Swap16(p) }

  /** The host-order port `bpf_ntohs` yields is the one whose network form
      is the low 16 bits of `user_port`. */
  lemma NtohsNetworkForm(userPort: U32)
    ensures UserPortFor(Ntohs(userPort)) == userPort % 0x1_0000
  {
    SwapInvolutive(Low16(userPort));
  }

  /** The kernel's swap and the program's swap cancel: the program sees the
      host-order port the socket call asked for. */
  lemma NtohsOfUserPort(p: U16)
    ensures Ntohs(UserPortFor(p)) == p
  {
    assert UserPortFor(p) % 0x1_0000 == Swap16(p);
    SwapInvolutive(p);
  }

  /** Whether the gate restricts the caller at all: a configured, non-empty
      name that the caller's `comm` matches. */
  predicate Tracks(config: Option<ProcessConfig>, comm: Name16)
  {
    config.Some? && config.value.processName[0] != 0
    && AgreeThroughNul(comm, config.value.processName, MAX_PROCESS_NAME_LEN, 0)
  }

  /** `filter_connect`. */
  function FilterConnect(config: Option<ProcessConfig>, comm: Name16, userPort: U32): (d: Decision)
    ensures d.ret == 0 || d.ret == 1
    ensures d.ret == 1 ==> d.trace == []
    ensures d.ret == 0 ==> d.trace == [BlockingConnect(Ntohs(userPort))]
  {
    if config.None? || config.value.processName[0] == 0 then Allow
    else if StrEqual(comm, config.value.processName, MAX_PROCESS_NAME_LEN) == 0 then Allow
    else
      var destPort := Ntohs(userPort);
      if destPort == config.value.allowedPort then Allow
      else Decision(0, [BlockingConnect(destPort)])
  }

  /** `filter_bind`: as `filter_connect`, but port 0 (let the kernel choose) is
      also allowed. */
  function FilterBind(config: Option<ProcessConfig>, comm: Name16, userPort: U32): (d: Decision)
    ensures d.ret == 0 || d.ret == 1
    ensures d.ret == 1 ==> d.trace == []
    ensures d.ret == 0 ==> d.trace == [BlockingBind(Ntohs(userPort))]
  {
    if config.None? || config.value.processName[0] == 0 then Allow
    else if StrEqual(comm, config.value.processName, MAX_PROCESS_NAME_LEN) == 0 then Allow
    else
      var bindPort := Ntohs(userPort);
      if bindPort == config.value.allowedPort || bindPort == 0 then Allow
      else Decision(0, [BlockingBind(bindPort)])
  }

  /** The `SEC("cgroup/connect4")` entry point. */
  function FilterConnect4(config: Option<ProcessConfig>, comm: Name16, userPort: U32): (d: Decision)
    ensures d.ret == 0 || d.ret == 1
    ensures d.ret == 1 ==> d.trace == []
    ensures d.ret == 1 <==> !Tracks(config, comm) || Ntohs(userPort) == config.value.allowedPort
    ensures d.ret == 0 ==> d.trace == [BlockingConnect(Ntohs(userPort))]
  {
    ConnectVerdict(config, comm, userPort);
    FilterConnect(config, comm, userPort)
  }

  /** The `SEC("cgroup/connect6")` entry point. */
  function FilterConnect6(config: Option<ProcessConfig>, comm: Name16, userPort: U32): (d: Decision)
    ensures d.ret == 0 || d.ret == 1
    ensures d.ret == 1 ==> d.trace == []
    ensures d.ret == 1 <==> !Tracks(config, comm) || Ntohs(userPort) == config.value.allowedPort
    ensures d.ret == 0 ==> d.trace == [BlockingConnect(Ntohs(userPort))]
  {
    ConnectVerdict(config, comm, userPort);
    FilterConnect(config, comm, userPort)
  }

  /** The `SEC("cgroup/bind4")` entry point. */
  function FilterBind4(config: Option<ProcessConfig>, comm: Name16, userPort: U32): (d: Decision)
    ensures d.ret == 0 || d.ret == 1
    ensures d.ret == 1 ==> d.trace == []
    ensures d.ret == 1 <==> !Tracks(config, comm) || Ntohs(userPort) == config.value.allowedPort || Ntohs(userPort) == 0
    ensures d.ret == 0 ==> d.trace == [BlockingBind(Ntohs(userPort))]
  {
    BindVerdict(config, comm, userPort);
    FilterBind(config, comm, userPort)
  }

  /** The `SEC("cgroup/bind6")` entry point. */
  function FilterBind6(config: Option<ProcessConfig>, comm: Name16, userPort: U32): (d: Decision)
    ensures d.ret == 0 || d.ret == 1
    ensures d.ret == 1 ==> d.trace == []
    ensures d.ret == 1 <==> !Tracks(config, comm) || Ntohs(userPort) == config.value.allowedPort || Ntohs(userPort) == 0
    ensures d.ret == 0 ==> d.trace == [BlockingBind(Ntohs(userPort))]
  {
    BindVerdict(config, comm, userPort);
    FilterBind(config, comm, userPort)
  }

  /** IPv4 and IPv6 hooks of the same operation always agree. */
  lemma AddressFamiliesAgree(config: Option<ProcessConfig>, comm: Name16, userPort: U32)
    ensures FilterConnect4(config, comm, userPort) == FilterConnect6(config, comm, userPort)
    ensures FilterBind4(config, comm, userPort) == FilterBind6(config, comm, userPort)
  {
  }

  /** With no record, or a record whose name is empty, every process may
      connect and bind anywhere. */
  lemma UnconfiguredAllowsAll(config: Option<ProcessConfig>, comm: Name16, userPort: U32)
    requires config.None? || config.value.processName[0] == 0
    ensures FilterConnect(config, comm, userPort) == Allow
    ensures FilterBind(config, comm, userPort) == Allow
  {
  }

  /** A caller whose `comm` differs from the configured name is never
      restricted. */
  lemma UntrackedAllowed(config: Option<ProcessConfig>, comm: Name16, userPort: U32)
    requires !Tracks(config, comm)
    ensures FilterConnect(config, comm, userPort) == Allow
    ensures FilterBind(config, comm, userPort) == Allow
  {
  }

  /** The whole connect decision: allowed exactly when the caller is
      untracked or the requested host-order port is the allowed port. */
  lemma ConnectVerdict(config: Option<ProcessConfig>, comm: Name16, userPort: U32)
    ensures FilterConnect(config, comm, userPort).ret == 1
            <==> !Tracks(config, comm) || Ntohs(userPort) == config.value.allowedPort
  {
  }

  /** The whole bind decision: allowed exactly when the caller is untracked,
      or the requested host-order port is the allowed port or 0. */
  lemma BindVerdict(config: Option<ProcessConfig>, comm: Name16, userPort: U32)
    ensures FilterBind(config, comm, userPort).ret == 1
            <==> !Tracks(config, comm) || Ntohs(userPort) == config.value.allowedPort || Ntohs(userPort) == 0
  {
  }

  /** The `comm` of two example processes, NUL-padded to 16 bytes. */
  const CURL: Name16 := [99, 117, 114, 108, 0, 0, 0, 0, 0, 0, 0, 0, 0, 0, 0, 0]
  const WGET: Name16 := [119, 103, 101, 116, 0, 0, 0, 0, 0, 0, 0, 0, 0, 0, 0, 0]

  /** A concrete configuration: the gate set up for `curl` with port 443.
      curl's connect to port 80 is blocked with one trace line, its connect
      to 443 and its bind to port 0 are allowed, and `wget` connecting to 80
      is not restricted. */
  lemma CurlScenario()
    ensures var config := Some(ProcessConfig(CURL, 443));
            && FilterConnect4(config, CURL, UserPortFor(80)) == Decision(0, [BlockingConnect(80)])
            && FilterConnect6(config, CURL, UserPortFor(443)) == Allow
            && FilterBind4(config, CURL, UserPortFor(0)) == Allow
            && FilterConnect4(config, WGET, UserPortFor(80)) == Allow
  {
    var config := Some(ProcessConfig(CURL, 443));
    assert FilterConnect4(config, CURL, UserPortFor(80)) == Decision(0, [BlockingConnect(80)]) by {
      NtohsOfUserPort(80);
    }
    assert FilterConnect6(config, CURL, UserPortFor(443)) == Allow by {
      NtohsOfUserPort(443);
    }
    assert FilterBind4(config, CURL, UserPortFor(0)) == Allow by {
      NtohsOfUserPort(0);
    }
    assert FilterConnect4(config, WGET, UserPortFor(80)) == Allow;
  }

  /** Connect and bind disagree only on a request for port 0, which bind
      allows and connect blocks. */
  lemma BindDiffersOnlyAtPortZero(config: Option<ProcessConfig>, comm: Name16, userPort: U32)
    requires FilterConnect(config, comm, userPort).ret != FilterBind(config, comm, userPort).ret
    ensures Ntohs(userPort) == 0
    ensures FilterBind(config, comm, userPort).ret == 1 && FilterConnect(config, comm, userPort).ret == 0
  {
  }
}
