# Port drop and process gate, modelled in Dafny

The repository holds two small eBPF tools with Go loaders.

- **Port drop.** An XDP program runs on each inbound frame of an interface. It drops TCP frames whose source or destination port equals a configured port, which a `__u32` array-map entry under key 0 holds.
- **Process gate.** Four cgroup programs run on `connect4`, `connect6`, `bind4` and `bind6`. They read a `process_config` record under key 0: a 16-byte process name and a 16-bit allowed port. If the caller's `comm` matches the name, only the allowed port is let through (bind also allows port 0). Every block prints one "BLOCKING" trace line. A Go driver validates the name, builds and writes the record, attaches the four programs in a fixed order and tears them down through `defer`.

The model has five modules:

- `Bytes`: fixed-width integers and the Go/C truncating conversions.
- `ByteOrder`: `bpf_htons`/`bpf_ntohs` as a 16-bit byte swap on a little-endian host, and the fact that a `__u16` load of two wire bytes reads them swapped.
- `ProcessFilter`: `str_equal`, written both as a recursive function and as the C `for` loop. It also holds `filter_connect`, `filter_bind` and the four `SEC` entry points, as pure functions of the config record (an `Option`, for the map lookup), the caller's `comm` and `ctx->user_port`. The result is the return value plus the trace lines emitted.
- `TcpDrop`: `xdp_drop_tcp_port`, a pure function of the frame bytes and the map lookup's result. It returns the action plus the trace lines emitted.
- `ProcessGateDriver`: `main` of the process-gate loader.
  - `BuildConfig` fills a zeroed 16-byte array with a copy loop.
  - `RunMain` runs the attach loop and pushes onto a defer stack.
  - `RunDeferred` pops the defer stack, newest first.
  - `RunMain` is proved equal to the specification function `Trace`. The lemmas about sequencing and teardown are stated on `Trace`.
  - The library calls (memlock removal, object loading, the map `Put`, each `link.AttachCgroup`) are outcomes supplied in an `Env`.

The model follows the code as written. Points a reader might not expect:

- The XDP program drops on a match of the source port or the destination port, not the destination port only.
- It never reads the EtherType. Any frame of at least 54 bytes with a 6 at byte 23 is treated as TCP/IPv4, and it assumes a 20-byte IP header whatever the IHL field says.
- Names are compared up to the first NUL of `comm`, not over the full 16 bytes.
- When an attach fails, `log.Fatalf` exits without detaching the hooks already attached. The model does the same: the deferred `Close` calls never run on a fatal path.

## Model

| member | source | states |
|---|---|---|
| Bytes.Int64ToU16 | drop_process_packets/main.go:50 | Go's `uint16(port)` of a signed 64-bit `int` equals the port modulo 65536 (Euclidean), so negative values and values above 65535 wrap; values already in range are kept |
| Bytes.Low16OfLow32 | drop_packets/main.go:35 | truncating a 64-bit value to 32 bits and then to 16 bits equals truncating it to 16 bits |
| ByteOrder.SwapExchangesBytes | drop_packets/ebpf/tcp_drop.c:46 | `bpf_htons`/`bpf_ntohs` exchange the high and low bytes of a 16-bit value |
| ByteOrder.SwapInvolutive | drop_packets/ebpf/tcp_drop.c:46 | swapping twice gives back the value, so htons and ntohs undo each other |
| ByteOrder.SwapCompare | drop_packets/ebpf/tcp_drop.c:46 | `field == htons(p)` holds exactly when `ntohs(field) == p` |
| ByteOrder.NtohsOfHostLoad | drop_packets/ebpf/tcp_drop.c:46 | `ntohs` of a little-endian host load of two wire bytes is their big-endian (network-order) value |
| ProcessFilter.StrEqualFrom | drop_process_packets/ebpf/process_filter.bpf.c:24-34 | the `str_equal` loop from index `i` returns only 0 or 1 |
| ProcessFilter.StrEqualFromMeaning | drop_process_packets/ebpf/process_filter.bpf.c:24-34 | from index `i`, the loop returns 1 exactly when `s1` and `s2` agree at every index below `len` that no NUL of `s1` precedes |
| ProcessFilter.StrEqual | drop_process_packets/ebpf/process_filter.bpf.c:24-34 | `str_equal` returns 1 exactly when the buffers agree up to and including the first NUL of `s1`, or at all `len` bytes when `s1` has no NUL; otherwise it returns 0 |
| ProcessFilter.StrEqualIgnoresAfterNul | drop_process_packets/ebpf/process_filter.bpf.c:29-31 | bytes after a NUL of `s1` never affect the result: buffer pairs that agree up to and including that NUL compare the same |
| ProcessFilter.StrEqualSymmetric | drop_process_packets/ebpf/process_filter.bpf.c:24-34 | swapping the two arguments never changes the result |
| ProcessFilter.StrEqualLoop | drop_process_packets/ebpf/process_filter.bpf.c:24-34 | the C `for` loop with its early returns gives the recursive function's result, which is 1 exactly when the buffers agree through the first NUL of `s1` |
| ProcessFilter.NtohsNetworkForm | drop_process_packets/ebpf/process_filter.bpf.c:52 | `bpf_ntohs(ctx->user_port)` yields the host-order port whose network form is the low 16 bits of `user_port` |
| ProcessFilter.NtohsOfUserPort | drop_process_packets/ebpf/process_filter.bpf.c:52 | for a socket call on host port `p`, `bpf_ntohs(ctx->user_port)` gives `p` back |
| ProcessFilter.FilterConnect | drop_process_packets/ebpf/process_filter.bpf.c:37-60 | the verdict is 0 or 1; an allow emits no trace line, and a block emits exactly one "BLOCKING connect" line carrying the host-order port |
| ProcessFilter.FilterBind | drop_process_packets/ebpf/process_filter.bpf.c:77-100 | the verdict is 0 or 1; an allow emits no trace line, and a block emits exactly one "BLOCKING bind" line carrying the host-order port |
| ProcessFilter.AddressFamiliesAgree | drop_process_packets/ebpf/process_filter.bpf.c:63-74 | `filter_connect4` and `filter_connect6` return the same decision on the same inputs, and so do `filter_bind4` and `filter_bind6` |
| ProcessFilter.UnconfiguredAllowsAll | drop_process_packets/ebpf/process_filter.bpf.c:40-43 | with no record, or a record whose name starts with NUL, connect and bind allow every process on every port and emit nothing |
| ProcessFilter.UntrackedAllowed | drop_process_packets/ebpf/process_filter.bpf.c:45-50 | a caller whose `comm` does not match the configured name is allowed on connect and on bind, with no trace line |
| ProcessFilter.ConnectVerdict | drop_process_packets/ebpf/process_filter.bpf.c:52-59 | for every `user_port`, connect is allowed exactly when the caller is untracked or `ntohs(user_port)` is the allowed port |
| ProcessFilter.BindVerdict | drop_process_packets/ebpf/process_filter.bpf.c:92-99 | for every `user_port`, bind is allowed exactly when the caller is untracked, or `ntohs(user_port)` is the allowed port or 0 |
| ProcessFilter.FilterConnect4 | drop_process_packets/ebpf/process_filter.bpf.c:63-67 | the `cgroup/connect4` entry point returns 0 or 1; it allows exactly when the caller is untracked or the requested port is the allowed one; an allow emits nothing and a block emits one "BLOCKING connect" line with that port |
| ProcessFilter.FilterConnect6 | drop_process_packets/ebpf/process_filter.bpf.c:70-74 | the `cgroup/connect6` entry point returns 0 or 1 with the same verdict and trace as connect4: no line on an allow, one "BLOCKING connect" line on a block |
| ProcessFilter.FilterBind4 | drop_process_packets/ebpf/process_filter.bpf.c:103-107 | the `cgroup/bind4` entry point returns 0 or 1; it allows exactly when the caller is untracked or the requested port is the allowed one or 0; an allow emits nothing and a block emits one "BLOCKING bind" line with that port |
| ProcessFilter.FilterBind6 | drop_process_packets/ebpf/process_filter.bpf.c:110-114 | the `cgroup/bind6` entry point returns 0 or 1 with the same verdict and trace as bind4: no line on an allow, one "BLOCKING bind" line on a block |
| ProcessFilter.CurlScenario | drop_process_packets/ebpf/process_filter.bpf.c:37-114 | with the record set to `curl` and port 443: curl's connect to port 80 is blocked with the line "BLOCKING connect 80", its connect to 443 and its bind to port 0 are allowed, and `wget` connecting to 80 is allowed |
| ProcessFilter.BindDiffersOnlyAtPortZero | drop_process_packets/ebpf/process_filter.bpf.c:94 | when connect and bind disagree, the requested port is 0, bind allows it and connect blocks it |
| TcpDrop.DropPort | drop_packets/ebpf/tcp_drop.c:44 | `(__u16)*port` follows C's rule for converting to an unsigned type: the result is the one 16-bit value congruent to the map value modulo 65536, so a value already below 65536 is unchanged |
| TcpDrop.TargetPortValue | drop_packets/main.go:35 | the loader's `uint32(*port)` keeps flag values below 2^32, and whatever it stores acts in the program as the flag modulo 65536 |
| TcpDrop.XdpDropTcpPort | drop_packets/ebpf/tcp_drop.c:22-52 | a PASS emits no trace line; a DROP needs a map entry and emits exactly one line carrying the truncated port |
| TcpDrop.XdpVerdict | drop_packets/ebpf/tcp_drop.c:29-51 | the frame is dropped exactly when it has at least 54 bytes, byte 23 is 6, an entry exists, and the big-endian source or destination port equals the entry's low 16 bits; the action code is XDP_DROP (1) on those frames and XDP_PASS (2) on every other |
| TcpDrop.FieldMatches | drop_packets/ebpf/tcp_drop.c:46 | a host-loaded TCP port field equals `bpf_htons(p)` exactly when its network-order value is `p` |
| TcpDrop.ShortFramePasses | drop_packets/ebpf/tcp_drop.c:29-31 | a frame shorter than 14 + 20 + 20 bytes passes with no trace line |
| TcpDrop.NonTcpPasses | drop_packets/ebpf/tcp_drop.c:33-35 | a frame whose byte at offset 23 is not 6 passes with no trace line |
| TcpDrop.UnconfiguredPasses | drop_packets/ebpf/tcp_drop.c:38-42 | with no map entry every frame passes |
| TcpDrop.EtherTypeIgnored | drop_packets/ebpf/tcp_drop.c:26-27 | rewriting the EtherType bytes 12-13 never changes the result |
| TcpDrop.ConfiguredPortAliases | drop_packets/ebpf/tcp_drop.c:44 | two entries with the same low 16 bits give the same result for every frame |
| TcpDrop.ZeroRecordDropsPortZero | drop_packets/ebpf/tcp_drop.c:38-48 | a zero entry, which is what the array map holds before the loader's write, drops exactly the TCP frames whose source or destination port is 0 |
| TcpDrop.PortFlagActsModulo65536 | drop_packets/main.go:35 | after the loader's `uint32` cast and the program's `__u16` cast, a `-port` flag value acts as itself modulo 65536 |
| ProcessGateDriver.PaddedName | drop_process_packets/main.go:48-49 | the name field holds the first `min(16, len)` bytes of the name, and every byte after the name is 0 |
| ProcessGateDriver.ConfigFor | drop_process_packets/main.go:48-50 | the record holds the name bytes, then zeros up to byte 15, so an accepted name of at most 15 bytes always ends in NUL; the allowed port is the flag value modulo 65536 |
| ProcessGateDriver.BuildConfig | drop_process_packets/main.go:48-50 | building the record in place (a zeroed array, then `copy`, then the port conversion) yields exactly that record |
| ProcessGateDriver.NameError | drop_process_packets/main.go:30-36 | a name is accepted exactly when it has 1 to 15 bytes; an empty name is the missing-flag error and a longer one the too-long error |
| ProcessGateDriver.LeadingSuccesses | drop_process_packets/main.go:71-79 | the number of attach attempts that succeed before the first failure: all earlier attempts succeeded, and the next one, if any, failed |
| ProcessGateDriver.RunDeferred | drop_process_packets/main.go:46 | deferred calls run in reverse order of registration |
| ProcessGateDriver.Trace | drop_process_packets/main.go:30-92 | a run reaches the signal wait and returns from `main` exactly when the name is accepted and memlock removal, loading, the map write and all four attaches succeed; every run that touches the kernel starts by loading the objects |
| ProcessGateDriver.RunMain | drop_process_packets/main.go:30-92 | one run of `main` produces exactly the exit and the kernel effects that `Trace` specifies |
| ProcessGateDriver.RejectedNameTouchesNothing | drop_process_packets/main.go:30-36 | an empty name, or one longer than 15 bytes, ends the run with the matching error and no effect on the kernel |
| ProcessGateDriver.ConfigWrittenBeforeAttach | drop_process_packets/main.go:52-55 | every hook attachment comes after the record is written under key 0, and a failed write ends the run with nothing attached |
| ProcessGateDriver.AttachInOrderUntilFailure | drop_process_packets/main.go:60-79 | hooks are attached in the order connect4, connect6, bind4, bind6; exactly those before the first failure are attached, the failure names the failing hook, and the run reaches the signal wait exactly when all four attach |
| ProcessGateDriver.LeadingSuccessesPrefix | drop_process_packets/main.go:71-79 | the number of hooks attached before the first failure depends only on the attach outcomes up to and including that failure |
| ProcessGateDriver.LaterOutcomesIgnored | drop_process_packets/main.go:77-79 | after an attach fails no later hook is tried: two runs whose attach outcomes agree up to the first failure (and whose earlier steps agree) are the same run |
| ProcessGateDriver.SignalExitClosesInReverse | drop_process_packets/main.go:80-92 | after the signal, all four links are closed in reverse order of attachment, and closing the loaded objects is the last effect |
| ProcessGateDriver.FatalExitClosesNothing | drop_process_packets/main.go:78-80 | a fatal exit closes no link and not the objects; after an attach failure the hooks attached before it are never closed by the program |
| ProcessGateDriver.TrackedExactlyByName | drop_process_packets/main.go:34-49 | for an accepted name with no NUL byte, the stored record tracks exactly the `comm` values that spell the name followed by NUL, so for a 15-byte name `comm[15]` must be 0 |

## Left out

- Kernel helpers are inputs of the model. The map lookups are `Option` parameters, `bpf_get_current_comm` is the `comm` parameter, and each `bpf_printk` is an entry in a returned trace list, without its format string.
- Each decision is modelled as a pure function of its inputs. So the frame and the socket context are visibly never written. Per-CPU concurrent invocation, the eBPF verifier and link lifetime in the kernel after the process exits are not modelled.
- Host byte order is fixed to little-endian, the x86_64 native target the build uses. A big-endian host, where `bpf_htons` is the identity, is not modelled.
- Go flag parsing, the `-cgroup` path, `log` output and the blocking signal wait are not modelled. The wait is a single termination event that leads to the return from `main`.
- `rlimit.RemoveMemlock`, `loadBpfObjects`, the map `Put` and `link.AttachCgroup` are modelled only as success or failure outcomes. The attach outcomes are one per attempt, exactly four of them.
- The code does not detach hooks already attached when a later attach fails, and `Close` is not made idempotent; the model does neither.
- drop_packets/main.go is not part of this model, apart from its `uint32` port cast. The interface lookup, the XDP attach and its teardown are left out: they are the same plumbing pattern as the process-gate driver.
- drop_process_packets/test.py is not part of this model. It is a manual socket test loop.
