# Kodiak server: option resolution and tick-rate bookkeeping

This project models two small pieces of the Kodiak game server.

- **Option resolution** (`server/src/cli/options.rs`). Pure helpers on the parsed command-line options record:
  - the server id, taken from an explicit option or from the first dot-separated label of the hostname;
  - the HTTP bandwidth burst;
  - the HTTP/HTTPS port pair, which depends on process privilege;
  - the deprecated certificate/private-key path pair;
  - the four log-filter getters and their fallback levels.
- **Health tick bookkeeping** (`server/src/actor/health.rs`). The integer state machine behind `Health::record_tick`, plus `take_tps`, `take_spt` and the default state. It covers:
  - the per-window tick counter for ticks per second (TPS);
  - the seconds-per-tick (SPT) samples;
  - the 30-second missed-tick window.

Modules:

- `Basics` (basics.dfy): `Option`, and the fixed-width integer types `u16`, `u32` and `usize` as subset types. It also holds the saturating and wrapping increments the source relies on.
- `Labels` (labels.dfy): `str::split` on a character, its inverse `Join`, and the hostname's first label.
- `ServerOptions` (options.dfy): the `Options` record and its helpers.
- `Health` (health.dfy): the tick-counting state, `RecordTick`, the two takes, and runs of calls (`Run`). Lemmas over a run say what is conserved across many calls.

Modelling choices:

- Time is a natural number of nanoseconds. `duration_since` saturates at zero.
- The TPS threshold is a parameter, `threshold`. The source computes it in floating point from the tick period: `Duration::from_secs_f32(1.0 - TICK_PERIOD_SECS * 0.5)`.
- A metric accumulator is modelled as the sequence of values pushed into it.
- Two external parses are parameters of the functions that use them:
  - `LevelFilter::from_str`;
  - the server number's `FromStr`.
- Process privilege is a `Platform` value. On unix it carries whether the effective uid is root. Off unix, the process always counts as privileged.

## Model

| member | source | states |
|---|---|---|
| Labels.Split | server/src/cli/options.rs:140-143 | Splitting always yields at least one piece, so the `unwrap` on `next()` cannot fail. No piece contains the separator. Joining the pieces with the separator gives back the input. |
| Labels.SplitJoin | server/src/cli/options.rs:140-143 | Splitting the join of separator-free pieces returns exactly those pieces, so split and join are mutual inverses. |
| Labels.FirstLabel | server/src/cli/options.rs:140-143 | The first piece is a prefix of the hostname that has no '.' and is followed by '.' or by the end of the string. |
| Labels.FirstLabelCharacterized | server/src/cli/options.rs:140-143 | A string is the first label exactly when it is the first piece of the split, so the first label is unique. |
| Labels.NoSeparatorIsWholeString | server/src/cli/options.rs:139-143 | A hostname with no '.' is its own first label. |
| Labels.FirstLabelOfPrefix | server/src/cli/options.rs:139-143 | The first label of `l + "." + rest` is `l` for any dot-free `l`, whatever `rest` holds. |
| ServerOptions.ResolveServerId | server/src/cli/options.rs:137-152 | An explicit id is returned as given. With neither an id nor a hostname, the result is `None`. Otherwise the result is `Some` exactly when the hostname's first label parses, and it is then that number with kind `Cloud`. |
| ServerOptions.ExplicitServerIdWins | server/src/cli/options.rs:137-139 | When an explicit id is present, the hostname never changes the result. |
| ServerOptions.DotlessHostnameParsedWhole | server/src/cli/options.rs:139-150 | A dotless hostname is parsed whole. The id is `Some(n, Cloud)` when it parses to `n`, and `None` otherwise. |
| ServerOptions.DomainSuffixIgnored | server/src/cli/options.rs:140-143 | For `first.rest`, only `first` affects the id. |
| ServerOptions.CertificatePrivateKeyPaths | server/src/cli/options.rs:130-135 | The result is `Some` if and only if both paths are present. It is then the certificate path followed by the key path. |
| ServerOptions.DebugHttpFilter | server/src/cli/options.rs:113-115 | A parsable level string gives its level. An unparsable one gives `Info`. |
| ServerOptions.DebugGameFilter | server/src/cli/options.rs:117-119 | A parsable level string gives its level. An unparsable one gives `Info`. |
| ServerOptions.DebugEngineFilter | server/src/cli/options.rs:121-123 | A parsable level string gives its level. An unparsable one gives `Warn`. |
| ServerOptions.DebugPlasmaFilter | server/src/cli/options.rs:125-127 | A parsable level string gives its level. An unparsable one gives `Warn`. |
| ServerOptions.FallbackAgreesWithDeclaredDefault | server/src/cli/options.rs:113-127 | Each getter's fallback equals what the option's declared default ("info" or "warn") resolves to, so an unparsable value behaves like an omitted one. |
| ServerOptions.ImplicitBurst | server/src/cli/options.rs:155 | When twice the static size fits in `u32`, the result is twice the static size. The result is always even. |
| ServerOptions.BandwidthBurst | server/src/cli/options.rs:154-156 | An explicit burst is returned unchanged. Without one, the result is twice the static size whenever that fits in `u32`. |
| ServerOptions.ExplicitBurstBelowStaticSizeKept | server/src/cli/options.rs:88-91 | An explicit burst below twice the static size is kept, so the "implicit minimum" in the doc comment is a default, not a floor. |
| ServerOptions.HttpAndHttpsPorts | server/src/cli/options.rs:158-177 | Each port is its override when one is given. A missing port is 80/443 when privileged and 8080/8443 otherwise. |
| ServerOptions.PortOverridesIndependent | server/src/cli/options.rs:171-174 | Changing one port's override never changes the other port. |
| ServerOptions.DefaultPortPairs | server/src/cli/options.rs:159-169 | Without overrides, the pair is (80, 443) if and only if the process is privileged, and (8080, 8443) otherwise. Off unix it is always (80, 443). |
| Health.DurationSince | server/src/actor/health.rs:96 | The duration added to the earlier instant gives the later one. It is 0 when the earlier instant is in fact later. |
| Health.ClampSpt | server/src/actor/health.rs:94 | The sample lies in [0, 10]. It equals `elapsed` inside that range and the nearer bound outside it. |
| Health.Initial | server/src/actor/health.rs:152-170 | Both counters are 0, both windows start at `now`, and both accumulators are empty. |
| Health.RecordTick | server/src/actor/health.rs:91-120 | Each call appends exactly one clamped SPT sample. Below the threshold, the window count grows by one (saturating) and nothing else about TPS changes. At one second or more, `ticks + 1` is pushed, the count resets to 0 and the window restarts at `now`. From the threshold up to, but not including, one second, `ticks` is pushed, the count becomes 1 and the window restarts. The missed-tick counter grows by one and resets only when strictly more than 30 s have passed. |
| Health.TakeTps | server/src/actor/health.rs:82-84 | The take returns the TPS accumulator and leaves an empty one. Putting the taken accumulator back restores the original state, so nothing else changes. |
| Health.TakeSpt | server/src/actor/health.rs:86-89 | The take returns the SPT accumulator and leaves an empty one. Putting the taken accumulator back restores the original state, so nothing else changes. |
| Health.TakeTwiceYieldsEmpty | server/src/actor/health.rs:82-89 | A second take in a row returns an empty (default) accumulator and changes nothing. |
| Health.TickCountedOnce | server/src/actor/health.rs:96-110 | Unless the counter saturates, one tick raises the sum of TPS samples plus the open-window count by exactly one. |
| Health.TicksConserved | server/src/actor/health.rs:82-110 | Over any run of ticks and takes without saturation, TPS samples taken + samples held + the open-window count grow by exactly the number of ticks. No tick is lost or counted twice. |
| Health.SptSamplesConserved | server/src/actor/health.rs:86-94 | Over any run, the SPT samples taken, followed by those still held, equal the initial samples followed by one clamped sample per tick, in order. |
| Health.FromInitialEveryTickCounted | server/src/actor/health.rs:152-170 | Starting from the default state, all TPS counts add up to the number of ticks. The SPT samples are exactly the clamped tick durations. |
| Health.MissedTicksWindowCountsEveryTick | server/src/actor/health.rs:112-119 | While no tick comes more than 30 s after the window opened (exactly 30 s included), the window keeps its start and its counter counts every tick. |
| Health.TpsWindowCountsEveryTick | server/src/actor/health.rs:96-110 | While every tick comes before the threshold has passed, the TPS window keeps its start and counts every tick. |

## Left out

- The transport layer (connection state machine, keepalive, close-code mapping) is not part of this model. None of its source is part of it.
- Command-line parsing by the `clap` derive macro (options.rs:11-106) is not modelled. An `Options` value stands for its output. `DeclaredDefaults` records the declared default values.
- The fields `server_token`, `ipv4_address`, `ipv6_address`, `region_id` and `domain` are omitted from `Options`. Their types are not part of this model, and no modelled helper reads them.
- `LevelFilter::from_str` and the server number's `FromStr` are parameters. Their internals are not part of this model.
- The effective-uid query is a parameter (`Platform`). The `log::info!` call in `http_and_https_ports` is a side effect only.
- ServerOptions.ImplicitBurst: models the release-build wrap-around of `static_size as u32 * 2`. A debug build panics instead when the product overflows `u32`.
- Basics.WrappingIncrement: models the release-build wrap of `ticks_for_missed_ticks += 1`. A debug build would panic at `usize::MAX`.
- Health.RecordTick: `elapsed` is a real, not an `f32`. NaN and rounding are not modelled. TPS samples are the exact integer counts, not their `f32` conversions.
- The `missed_ticks` fraction (health.rs:114-116) is left out. It is computed in floating point.
- The float computation of the TPS threshold is left out. The threshold is a parameter.
- `refresh_if_necessary` and the `cpu`, `cpu_steal`, `ram` and `missed_ticks` getters are left out. They cache wall-clock reads and constants.
- The constant stub getters `bandwidth_rx`, `bandwidth_tx` and `connections` are left out.
- The internals of `ContinuousExtremaMetricAccumulator` and `SimpleServerStatus` are not part of this model. An accumulator is the sequence of its pushed values.
- The doc comment on `http_bandwidth_burst` calls twice the static size an "implicit minimum". The code only uses it as a default. The model follows the code (see `ServerOptions.ExplicitBurstBelowStaticSizeKept`).
