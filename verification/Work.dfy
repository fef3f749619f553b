/** Work classes and descriptors shared by the fair queue and the admission controller. */
module Work {
  import opened Base

  type TenantId = nat

  datatype WorkClass = Critical | Interactive | Normal | Bulk | Background | Maintenance {
    function Rank(): nat {
      match this
      case Critical => 5
      case Interactive => 4
      case Normal => 3
      case Bulk => 2
      case Background => 1
      case Maintenance => 0
    }
  }

  const CLASSES: seq<WorkClass> := [Critical, Interactive, Normal, Bulk, Background, Maintenance]

  lemma EveryClassListed(c: WorkClass)
    ensures c in CLASSES
  {
    assert CLASSES[5 - c.Rank()] == c;
  }

  /** One value for each work class. */
  datatype PerClass<+T> = PerClass(critical: T, interactive: T, normal: T, bulk: T, background: T, maintenance: T) {
    function Of(c: WorkClass): T {
      match c
      case Critical => critical
      case Interactive => interactive
      case Normal => normal
      case Bulk => bulk
      case Background => background
      case Maintenance => maintenance
    }
  }

  /** The sum of a quantity over the six classes. */
  function Across(f: WorkClass -> nat): nat {
    f(Critical) + f(Interactive) + f(Normal) + f(Bulk) + f(Background) + f(Maintenance)
  }

  lemma AcrossUpdate(f: WorkClass -> nat, g: WorkClass -> nat, c: WorkClass)
    requires forall d :: d != c ==> f(d) == g(d)
    ensures Across(f) + g(c) == Across(g) + f(c)
  {
  }

  datatype ResourceDomain =
    | HttpRequest | SyncExchange | DatabaseTransaction | InteractiveCpu | BulkCpu | MaintenanceCpu
    | SnapshotBuild | SnapshotDownload | BlobTransfer | LiveConnection | BackgroundJob

  const RESOURCE_DOMAINS: seq<ResourceDomain> := [
    HttpRequest, SyncExchange, DatabaseTransaction, InteractiveCpu, BulkCpu, MaintenanceCpu,
    SnapshotBuild, SnapshotDownload, BlobTransfer, LiveConnection, BackgroundJob
  ]

  datatype RequestShape = RequestShape(
    operations: usize, encodedBytes: u64, decompressedBytes: u64,
    scopes: usize, dependencyEdges: usize, dependencyDepth: usize)

  datatype WorkDescriptor = WorkDescriptor(
    tenantId: TenantId, tenantWeight: u16, class_: WorkClass, cost: u32,
    shape: RequestShape, estimatedResponseBytes: u64, resources: seq<ResourceDomain>)
  {
    /** Bytes charged while the work is queued or running; never zero. */
    function EstimatedBytes(): (r: u64)
      ensures r >= 1
    {
      Max(SatAdd(shape.decompressedBytes, estimatedResponseBytes, U64_MAX), 1)
    }
  }
}
