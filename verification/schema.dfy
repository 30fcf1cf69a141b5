/** The records the watcher moves around: a sampled systemd unit, the
    BigQuery schema row built from it, and the opaque row handed to backends. */
module Schema {
  import opened Wrappers
  import Decimal

  /** Go's `uint32`, the type of `SystemdUnitStatus.Pid`. */
  type Uint32 = x: nat | x < 0x1_0000_0000

  /** A floating-point CPU figure. The model never computes with it; it is only
      carried and compared for equality, so its IEEE bit pattern stands in. */
  datatype CpuFigure = CpuFigure(bits: int)

  /** `proc.CPUPidUsage`: the three figures measured for one process. */
  datatype CpuUsage = CpuUsage(user: CpuFigure, system: CpuFigure, total: CpuFigure)

  /** `SystemdUnitStatus`: unit name, main PID and the usage sampled for it. */
  datatype UnitStatus = UnitStatus(name: string, pid: Uint32, usage: CpuUsage)

  /** `backend.BigQuerySchema`, restricted to the fields the watcher sets.
      Timestamps are instants of the abstract clock. */
  datatype BigQuerySchema = BigQuerySchema(
    name: string,
    timestamp: nat,
    userCpu: CpuFigure,
    systemCpu: CpuFigure,
    totalCpu: CpuFigure,
    hostname: string,
    instance: string)

  /** `backend.BigQueryRow`: what the backends receive. The conversion from a
      schema value is treated as an opaque injective wrapping. */
  datatype Row = Row(schema: BigQuerySchema)

  /** The sentinel stamped on every row when the host name cannot be found. */
  const UndefinedHostname: string := "<undefined>"

  /** `BigQuerySchema.ToBigQueryRow`: injective, and the schema can be read back. */
  function ToRow(s: BigQuerySchema): (r: Row)
    ensures r.schema == s
  {
    Row(s)
  }

  /** `SystemdUnitStatus.ToBigQuerySchema` at clock instant `now`. The hostname
      is left as Go's zero value; the aggregator stamps it afterwards. As in
      the source, the system figure is copied from the user figure. */
  function ToBigQuerySchema(s: UnitStatus, now: nat): (r: BigQuerySchema)
    ensures r.name == s.name
    ensures r.timestamp == now
    ensures r.userCpu == s.usage.user && r.systemCpu == s.usage.user
    ensures r.totalCpu == s.usage.total
    ensures r.hostname == ""
    ensures Decimal.IsCanonical(r.instance) && Decimal.Atoi(r.instance) == s.pid
  {
    Decimal.AtoiItoa(s.pid);
    BigQuerySchema(
      name := s.name,
      timestamp := now,
      userCpu := s.usage.user,
      systemCpu := s.usage.user,
      totalCpu := s.usage.total,
      hostname := "",
      instance := Decimal.Itoa(s.pid))
  }

  /** The host name the aggregator caches: the looked-up name, or the
      sentinel when `os.Hostname` failed. */
  function ResolveHostname(lookup: Option<string>): (h: string)
    ensures lookup.Some? ==> h == lookup.value
    ensures lookup.None? ==> h == UndefinedHostname
  {
    lookup.GetOr(UndefinedHostname)
  }

  /** The row the aggregator builds for a sample result: the converted schema
      with the cached host name stamped on it. */
  function SampleRow(s: UnitStatus, hostname: string, now: nat): (r: Row)
    ensures r.schema.hostname == hostname
    ensures r.schema.name == s.name && r.schema.timestamp == now
    ensures r.schema.userCpu == s.usage.user && r.schema.systemCpu == s.usage.user
    ensures r.schema.totalCpu == s.usage.total
    ensures Decimal.IsCanonical(r.schema.instance) && Decimal.Atoi(r.schema.instance) == s.pid
  {
    ToRow(ToBigQuerySchema(s, now).(hostname := hostname))
  }

  /** Two samples that differ only in their system CPU figure yield the same
      schema: the source never reads `CPUUsage.System` when converting. */
  lemma SystemFigureIgnored(s: UnitStatus, sys: CpuFigure, now: nat)
    ensures ToBigQuerySchema(s.(usage := s.usage.(system := sys)), now) == ToBigQuerySchema(s, now)
  {
  }

  /** The schema conversion loses nothing but the system figure: equal schemas
      at the same instant come from samples that agree on name, PID, user and
      total figures. */
  lemma ToBigQuerySchemaDeterminesSample(s: UnitStatus, t: UnitStatus, now: nat)
    requires ToBigQuerySchema(s, now) == ToBigQuerySchema(t, now)
    ensures s.name == t.name && s.pid == t.pid
    ensures s.usage.user == t.usage.user && s.usage.total == t.usage.total
  {
    Decimal.AtoiItoa(s.pid);
    Decimal.AtoiItoa(t.pid);
  }
}
