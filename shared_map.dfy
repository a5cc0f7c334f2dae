/**
 * Opening the named shared-memory segment that holds the task map
 * (`src/shared_map.rs`). A segment is laid out as
 *
 *   [ lock region | map header (bucket_count, used, size) | buckets ]
 *
 * The operating-system calls (open, create, lock creation and lock
 * acquisition) are parameters holding what each call returned; the
 * segment is a `Region` object whose owner flag, lock and header the
 * operations update in place.
 */
module SharedMap {
  import opened Common

  /** The header is three `usize` fields on a 64-bit target; the phantom field takes no space. */
  const HEADER_SIZE: nat := 3 * 8

  /** The errors of the shared-memory crate that this code tells apart. */
  datatype ShmemError =
    | MapOpenFailed(code: nat)
    | LinkDoesNotExist
    | NoLinkOrOsId
    | MappingIdExists
    | OtherShmem(code: nat)

  datatype SharedMapError =
    | RegionTooSmall
    | Shmem(cause: ShmemError)
    | LockInit(message: string)
    | LockGuard(message: string)

  /** The map's control header (`SharedContents`). */
  datatype Header = Header(bucketCount: nat, used: nat, size: nat)

  /** A mapped segment. */
  class Region {
    /** The mapped length in bytes (`shm.len()`). */
    const len: nat
    /** Whether the segment is removed when this mapping is dropped (`set_owner`). */
    var owner: bool
    /** How many times a fresh lock was created in the lock region. */
    var lockInits: nat
    /** The header stored after the lock region, once written. */
    var header: Option<Header>

    constructor (len: nat, owner: bool, lockInits: nat, header: Option<Header>)
      ensures this.len == len && this.owner == owner && this.lockInits == lockInits && this.header == header
    {
      this.len := len;
      this.owner := owner;
      this.lockInits := lockInits;
      this.header := header;
    }
  }

  /** An opened map: the segment, where its data starts, and how large the data part is. */
  datatype SharedMapHandle = SharedMapHandle(region: Region, dataOffset: nat, dataSize: nat)

  // ---------------------------------------------------------------------
  // Pure decisions
  // ---------------------------------------------------------------------

  /** The region left for the map once the lock region is taken, if it can hold the header. */
  function DataSize(totalLen: nat, lockRegion: nat): (r: Result<nat, SharedMapError>)
    ensures r.Err? <==> totalLen < lockRegion + HEADER_SIZE
    ensures r.Err? ==> r.error == RegionTooSmall
    ensures r.Ok? ==> r.value + lockRegion == totalLen && r.value >= HEADER_SIZE
  {
    if totalLen < lockRegion + HEADER_SIZE then Err(RegionTooSmall) else Ok(totalLen - lockRegion)
  }

  /** The open errors that mean "no such segment yet", after which the segment is created. */
  predicate CreatesAfter(e: SharedMapError) {
    e.Shmem? && (e.cause.MapOpenFailed? || e.cause.LinkDoesNotExist? || e.cause.NoLinkOrOsId?)
  }

  /**
   * What `map_from_shmem` returns: the size check first, then the lock
   * (created when `init`, attached otherwise), then, when `init`, taking the
   * lock to write the header. `lock` and `guard` are what those calls returned.
   */
  function MapResult(shm: Region, init: bool, lockRegion: nat, lock: Result<(), string>, guard: Result<(), string>)
    : Result<SharedMapHandle, SharedMapError>
  {
    match DataSize(shm.len, lockRegion)
    case Err(e) => Err(e)
    case Ok(size) =>
      if lock.Err? then Err(LockInit(lock.error))
      else if init && guard.Err? then Err(LockGuard(guard.error))
      else Ok(SharedMapHandle(shm, lockRegion, size))
  }

  /** What `open_existing` returns, given what the open call returned. */
  function AttachResult(openCall: Result<Region, ShmemError>, lockRegion: nat, lock: Result<(), string>)
    : Result<SharedMapHandle, SharedMapError>
  {
    match openCall
    case Err(e) => Err(Shmem(e))
    case Ok(shm) => MapResult(shm, false, lockRegion, lock, Ok(()))
  }

  /** What `create_or_retry` returns, given what the create call and the fallback open returned. */
  function CreateResult(created: Result<Region, ShmemError>, reopened: Result<Region, ShmemError>, lockRegion: nat,
                        createLock: Result<(), string>, guard: Result<(), string>, reopenLock: Result<(), string>)
    : Result<SharedMapHandle, SharedMapError>
  {
    match created
    case Ok(shm) => MapResult(shm, true, lockRegion, createLock, guard)
    case Err(MappingIdExists) => AttachResult(reopened, lockRegion, reopenLock)
    case Err(e) => Err(Shmem(e))
  }

  /** Whether `map_from_shmem` gets as far as creating a fresh lock. */
  predicate CreatesLock(shm: Region, init: bool, lockRegion: nat, lock: Result<(), string>) {
    init && DataSize(shm.len, lockRegion).Ok? && lock.Ok?
  }

  /** Whether `map_from_shmem` writes the header. */
  predicate WritesHeader(shm: Region, init: bool, lockRegion: nat, lock: Result<(), string>, guard: Result<(), string>) {
    CreatesLock(shm, init, lockRegion, lock) && guard.Ok?
  }

  // ---------------------------------------------------------------------
  // Operations
  // ---------------------------------------------------------------------

  /**
   * Build the map over a mapped segment. Only `init` creates the lock and
   * writes the header `(0, 0, data size)`; an attach leaves the segment as it is.
   */
  method MapFromShmem(shm: Region, init: bool, lockRegion: nat, lock: Result<(), string>, guard: Result<(), string>)
    returns (r: Result<SharedMapHandle, SharedMapError>)
    modifies shm
    ensures r == MapResult(shm, init, lockRegion, lock, guard)
    ensures !init ==> unchanged(shm)
    ensures shm.owner == old(shm.owner)
    ensures shm.lockInits == old(shm.lockInits) + if CreatesLock(shm, init, lockRegion, lock) then 1 else 0
    ensures shm.header ==
      if WritesHeader(shm, init, lockRegion, lock, guard) then Some(Header(0, 0, shm.len - lockRegion)) else old(shm.header)
  {
    var totalLen := shm.len;
    if totalLen < lockRegion + HEADER_SIZE {
      return Err(RegionTooSmall);
    }
    var dataSize := totalLen - lockRegion;
    if lock.Err? {
      return Err(LockInit(lock.error));
    }
    if init {
      shm.lockInits := shm.lockInits + 1;
    }
    var handle := SharedMapHandle(shm, lockRegion, dataSize);
    if init {
      if guard.Err? {
        return Err(LockGuard(guard.error));
      }
      shm.header := Some(Header(0, 0, dataSize));
    }
    r := Ok(handle);
  }

  /** Attach to an existing segment; nothing in it is changed. */
  method OpenExisting(openCall: Result<Region, ShmemError>, lockRegion: nat, lock: Result<(), string>)
    returns (r: Result<SharedMapHandle, SharedMapError>)
    modifies if openCall.Ok? then {openCall.value} else {}
    ensures r == AttachResult(openCall, lockRegion, lock)
    ensures openCall.Ok? ==> unchanged(openCall.value)
  {
    match openCall {
      case Err(e) =>
        r := Err(Shmem(e));
      case Ok(shm) =>
        r := MapFromShmem(shm, false, lockRegion, lock, Ok(()));
    }
  }

  /**
   * Create the segment, give up its ownership so that it outlives this
   * process, and initialise it; if another process created it first,
   * attach to theirs instead.
   */
  method CreateOrRetry(created: Result<Region, ShmemError>, reopened: Result<Region, ShmemError>, lockRegion: nat,
                       createLock: Result<(), string>, guard: Result<(), string>, reopenLock: Result<(), string>)
    returns (r: Result<SharedMapHandle, SharedMapError>)
    modifies (if created.Ok? then {created.value} else {}), (if reopened.Ok? then {reopened.value} else {})
    ensures r == CreateResult(created, reopened, lockRegion, createLock, guard, reopenLock)
    ensures created.Ok? ==> var shm := created.value;
      && !shm.owner
      && shm.lockInits == old(shm.lockInits) + (if CreatesLock(shm, true, lockRegion, createLock) then 1 else 0)
      && shm.header == (if WritesHeader(shm, true, lockRegion, createLock, guard)
                        then Some(Header(0, 0, shm.len - lockRegion)) else old(shm.header))
    ensures reopened.Ok? && (created.Ok? ==> reopened.value != created.value) ==> unchanged(reopened.value)
  {
    match created {
      case Ok(shm) =>
        shm.owner := false;
        r := MapFromShmem(shm, true, lockRegion, createLock, guard);
      case Err(MappingIdExists) =>
        r := OpenExisting(reopened, lockRegion, reopenLock);
      case Err(e) =>
        r := Err(Shmem(e));
    }
  }

  /** What `open_or_create` returns, given what every call it may make returned. */
  function OpenOrCreateResult(openCall: Result<Region, ShmemError>, openLock: Result<(), string>,
                              created: Result<Region, ShmemError>, reopened: Result<Region, ShmemError>, lockRegion: nat,
                              createLock: Result<(), string>, guard: Result<(), string>, reopenLock: Result<(), string>)
    : Result<SharedMapHandle, SharedMapError>
  {
    var first := AttachResult(openCall, lockRegion, openLock);
    if first.Err? && CreatesAfter(first.error) then
      CreateResult(created, reopened, lockRegion, createLock, guard, reopenLock)
    else first
  }

  /**
   * Attach to the named segment, creating it when it does not exist yet.
   * `created` and `reopened` are consulted only on the paths that make those calls.
   */
  method OpenOrCreate(openCall: Result<Region, ShmemError>, openLock: Result<(), string>,
                      created: Result<Region, ShmemError>, reopened: Result<Region, ShmemError>, lockRegion: nat,
                      createLock: Result<(), string>, guard: Result<(), string>, reopenLock: Result<(), string>)
    returns (r: Result<SharedMapHandle, SharedMapError>)
    modifies (if openCall.Ok? then {openCall.value} else {}), (if created.Ok? then {created.value} else {}),
      (if reopened.Ok? then {reopened.value} else {})
    ensures r == OpenOrCreateResult(openCall, openLock, created, reopened, lockRegion, createLock, guard, reopenLock)
    ensures openCall.Ok? ==> unchanged(openCall.value)
    ensures openCall.Err? && CreatesAfter(Shmem(openCall.error)) && created.Ok? ==> var shm := created.value;
      && !shm.owner
      && shm.lockInits == old(shm.lockInits) + (if CreatesLock(shm, true, lockRegion, createLock) then 1 else 0)
      && shm.header == (if WritesHeader(shm, true, lockRegion, createLock, guard)
                        then Some(Header(0, 0, shm.len - lockRegion)) else old(shm.header))
    ensures created.Ok? && (openCall.Err? ==> !CreatesAfter(Shmem(openCall.error))) ==> unchanged(created.value)
    ensures reopened.Ok? && (created.Ok? ==> reopened.value != created.value) ==> unchanged(reopened.value)
  {
    var first := OpenExisting(openCall, lockRegion, openLock);
    match first {
      case Ok(handle) =>
        r := Ok(handle);
      case Err(Shmem(MapOpenFailed(_))) =>
        r := CreateOrRetry(created, reopened, lockRegion, createLock, guard, reopenLock);
      case Err(Shmem(LinkDoesNotExist)) =>
        r := CreateOrRetry(created, reopened, lockRegion, createLock, guard, reopenLock);
      case Err(Shmem(NoLinkOrOsId)) =>
        r := CreateOrRetry(created, reopened, lockRegion, createLock, guard, reopenLock);
      case Err(e) =>
        r := Err(e);
    }
  }

  // ---------------------------------------------------------------------
  // Properties
  // ---------------------------------------------------------------------

  /**
   * A mapped map has room for its header, and its data part is exactly the
   * segment after the lock region.
   */
  lemma MappedLayout(shm: Region, init: bool, lockRegion: nat, lock: Result<(), string>, guard: Result<(), string>)
    requires MapResult(shm, init, lockRegion, lock, guard).Ok?
    ensures var m := MapResult(shm, init, lockRegion, lock, guard).value;
      m.region == shm && m.dataOffset == lockRegion && m.dataOffset + m.dataSize == shm.len && m.dataSize >= HEADER_SIZE
  {
  }

  /** The size check comes first: a segment too small for lock and header is refused whatever the lock does. */
  lemma TooSmallRefused(shm: Region, init: bool, lockRegion: nat, lock: Result<(), string>, guard: Result<(), string>)
    ensures MapResult(shm, init, lockRegion, lock, guard) == Err(RegionTooSmall) <==> shm.len < lockRegion + HEADER_SIZE
  {
  }

  /** An attach never takes the header lock, so its outcome does not depend on it. */
  lemma AttachIgnoresGuard(shm: Region, lockRegion: nat, lock: Result<(), string>, g1: Result<(), string>, g2: Result<(), string>)
    ensures MapResult(shm, false, lockRegion, lock, g1) == MapResult(shm, false, lockRegion, lock, g2)
    ensures !CreatesLock(shm, false, lockRegion, lock) && !WritesHeader(shm, false, lockRegion, lock, g1)
  {
  }

  /** A segment that opens is used as it is: the create call is never consulted. */
  lemma OpenedIsUsed(shm: Region, openLock: Result<(), string>, created: Result<Region, ShmemError>,
                     reopened: Result<Region, ShmemError>, lockRegion: nat,
                     createLock: Result<(), string>, guard: Result<(), string>, reopenLock: Result<(), string>)
    ensures OpenOrCreateResult(Ok(shm), openLock, created, reopened, lockRegion, createLock, guard, reopenLock)
         == MapResult(shm, false, lockRegion, openLock, Ok(()))
  {
  }

  /** Only the three "not found" errors lead to creation; any other open error is returned unchanged. */
  lemma OtherOpenErrorsPropagate(e: ShmemError, openLock: Result<(), string>, created: Result<Region, ShmemError>,
                                 reopened: Result<Region, ShmemError>, lockRegion: nat,
                                 createLock: Result<(), string>, guard: Result<(), string>, reopenLock: Result<(), string>)
    ensures OpenOrCreateResult(Err(e), openLock, created, reopened, lockRegion, createLock, guard, reopenLock)
         == if e.MapOpenFailed? || e.LinkDoesNotExist? || e.NoLinkOrOsId?
            then CreateResult(created, reopened, lockRegion, createLock, guard, reopenLock)
            else Err(Shmem(e))
  {
  }

  /**
   * When the create call loses the race (MappingIdExists) the open is
   * retried and its outcome is returned; other create errors are returned.
   */
  lemma LostRaceAttaches(created: Result<Region, ShmemError>, reopened: Result<Region, ShmemError>, lockRegion: nat,
                         createLock: Result<(), string>, guard: Result<(), string>, reopenLock: Result<(), string>)
    requires created.Err?
    ensures CreateResult(created, reopened, lockRegion, createLock, guard, reopenLock)
         == if created.error == MappingIdExists then AttachResult(reopened, lockRegion, reopenLock)
            else Err(Shmem(created.error))
  {
  }

  /**
   * Two processes racing on a fresh name: the first creates and initialises
   * the segment, the second finds no segment, loses the create race and
   * attaches. Between them the lock is created exactly once, the header is
   * written once, and both see the same data part.
   */
  method RaceForFreshSegment(shm: Region, lockRegion: nat)
    returns (first: Result<SharedMapHandle, SharedMapError>, second: Result<SharedMapHandle, SharedMapError>)
    requires shm.len >= lockRegion + HEADER_SIZE
    modifies shm
    ensures shm.lockInits == old(shm.lockInits) + 1
    ensures shm.header == Some(Header(0, 0, shm.len - lockRegion)) && !shm.owner
    ensures first.Ok? && second.Ok? && first.value == second.value
  {
    first := OpenOrCreate(Err(LinkDoesNotExist), Ok(()), Ok(shm), Err(LinkDoesNotExist), lockRegion, Ok(()), Ok(()), Ok(()));
    second := OpenOrCreate(Err(LinkDoesNotExist), Ok(()), Err(MappingIdExists), Ok(shm), lockRegion, Ok(()), Ok(()), Ok(()));
  }
}
