/**
 * ApplicationProperties: the "employee.*" settings, their defaults, the setters
 * that reject bad values, and the checks of the thread-pool sizes.  Spring binds
 * the settings through the setters, so every field holds either its default or
 * a value a setter accepted; class invariant Valid() says what that guarantees.
 * Each setter checks its own field only: the order of the two pool sizes is
 * checked by getMaxThreadPoolSize and validateThreadPoolConfiguration.
 */
module Config {
  import opened Wrappers
  import opened JavaInts
  import opened Errors
  import opened JavaText

  const DEFAULT_DATA_FILE_PATH := "data/employees.json"
  const DEFAULT_MAX_THREAD_POOL_SIZE: int32 := 100
  const DEFAULT_CORE_POOL_SIZE: int32 := 5
  const DEFAULT_QUEUE_CAPACITY: int32 := 100
  const DEFAULT_ENABLE_CACHING := true
  const DEFAULT_THREAD_NAME_PREFIX := "Async-"

  /** Paths.get on the default (Unix) file system: the only string it rejects is
      one holding a NUL character. */
  predicate IsValidPath(p: string) {
    forall i :: 0 <= i < |p| ==> p[i] != '\0'
  }

  /** The six settings, as values. */
  datatype Settings = Settings(
    dataFilePath: string,
    maxThreadPoolSize: int32,
    corePoolSize: int32,
    queueCapacity: int32,
    enableCaching: bool,
    threadNamePrefix: string)

  /** What the setters guarantee of each field (and the defaults satisfy). */
  predicate Acceptable(s: Settings) {
    && IsValidPath(s.dataFilePath)
    && s.maxThreadPoolSize >= 1
    && s.corePoolSize >= 1
    && s.queueCapacity >= 0
    && Trim(s.threadNamePrefix) != []
  }

  class ApplicationProperties {
    var dataFilePath: string
    var maxThreadPoolSize: int32
    var corePoolSize: int32
    var queueCapacity: int32
    var enableCaching: bool   // a Boolean the setter never lets become null
    var threadNamePrefix: string

    function Current(): Settings
      reads this
    {
      Settings(dataFilePath, maxThreadPoolSize, corePoolSize, queueCapacity, enableCaching, threadNamePrefix)
    }

    ghost predicate Valid()
      reads this
    {
      Acceptable(Current())
    }

    /** The defaults: they satisfy every setter rule, and the core pool size is
        below the maximum, so both pool checks pass. */
    constructor ()
      ensures Valid()
      ensures Current() == Settings(DEFAULT_DATA_FILE_PATH, DEFAULT_MAX_THREAD_POOL_SIZE, DEFAULT_CORE_POOL_SIZE,
                                    DEFAULT_QUEUE_CAPACITY, DEFAULT_ENABLE_CACHING, DEFAULT_THREAD_NAME_PREFIX)
      ensures GetMaxThreadPoolSize() == Success(DEFAULT_MAX_THREAD_POOL_SIZE)
      ensures ValidateThreadPoolConfiguration() == Pass
      ensures GetResolvedDataFilePath() == Success("./" + DEFAULT_DATA_FILE_PATH)
    {
      dataFilePath := DEFAULT_DATA_FILE_PATH;
      maxThreadPoolSize := DEFAULT_MAX_THREAD_POOL_SIZE;
      corePoolSize := DEFAULT_CORE_POOL_SIZE;
      queueCapacity := DEFAULT_QUEUE_CAPACITY;
      enableCaching := DEFAULT_ENABLE_CACHING;
      threadNamePrefix := DEFAULT_THREAD_NAME_PREFIX;
      assert Trim(DEFAULT_THREAD_NAME_PREFIX) != [] by {
        TrimEmptyIff(DEFAULT_THREAD_NAME_PREFIX);
        assert !IsTrimmable(DEFAULT_THREAD_NAME_PREFIX[0]);
      }
    }

    /** getDataFilePath: re-checks the path, which therefore never fails on an object
        whose path came from the default or the setter. */
    function GetDataFilePath(): (r: Result<string, Error>)
      reads this
      ensures r.Success? ==> r.value == dataFilePath
      ensures Valid() ==> r == Success(dataFilePath)
    {
      if IsValidPath(dataFilePath) then Success(dataFilePath)
      else Failure(Configuration(InvalidFilePath))
    }

    /** getMaxThreadPoolSize: fails exactly when the maximum is below the core size. */
    function GetMaxThreadPoolSize(): (r: Result<int32, Error>)
      reads this
      ensures r.Success? <==> corePoolSize <= maxThreadPoolSize
      ensures r.Success? ==> r.value == maxThreadPoolSize && r.value >= corePoolSize
      ensures r.Failure? ==> r.error == Configuration(MaxBelowCore)
    {
      if maxThreadPoolSize < corePoolSize then Failure(Configuration(MaxBelowCore))
      else Success(maxThreadPoolSize)
    }

    /** validateThreadPoolConfiguration: the same condition as getMaxThreadPoolSize,
        written the other way round. */
    function ValidateThreadPoolConfiguration(): (o: Outcome<Error>)
      reads this
      ensures o.Pass? <==> GetMaxThreadPoolSize().Success?
      ensures o.Fail? ==> o.error == Configuration(CoreAboveMax)
    {
      if corePoolSize > maxThreadPoolSize then Fail(Configuration(CoreAboveMax)) else Pass
    }

    /** getResolvedDataFilePath: an absolute path as it is, any other under "./";
        prefixing "./" adds no NUL, so on a valid object it never fails. */
    function GetResolvedDataFilePath(): (r: Result<string, Error>)
      reads this
      ensures r.Success? ==>
        if "/" <= dataFilePath then r.value == dataFilePath else r.value == "./" + dataFilePath
      ensures r.Success? ==> "/" <= r.value || "./" <= r.value
      ensures Valid() ==> r.Success?
    {
      var path := if "/" <= dataFilePath then dataFilePath else "./" + dataFilePath;
      if IsValidPath(path) then Success(path)
      else Failure(Configuration(InvalidResolvedFilePath))
    }

    /** setDataFilePath: Paths.get(null) throws NullPointerException, a path with NUL
        is a ConfigurationException; otherwise the path is stored as given. */
    method SetDataFilePath(path: Option<string>) returns (outcome: Outcome<Error>)
      requires Valid()
      modifies this
      ensures Valid()
      ensures outcome.Pass? <==> path.Some? && IsValidPath(path.value)
      ensures outcome.Fail? ==> outcome.error == if path.None? then NullPointer else Configuration(InvalidFilePath)
      ensures Current() == if outcome.Pass? then old(Current()).(dataFilePath := path.value) else old(Current())
    {
      if path.None? {
        return Fail(NullPointer);
      }
      if !IsValidPath(path.value) {
        return Fail(Configuration(InvalidFilePath));
      }
      dataFilePath := path.value;
      outcome := Pass;
    }

    /** setMaxThreadPoolSize: at least 1; the core size is not compared. */
    method SetMaxThreadPoolSize(size: int32) returns (outcome: Outcome<Error>)
      requires Valid()
      modifies this
      ensures Valid()
      ensures outcome.Pass? <==> size >= 1
      ensures outcome.Fail? ==> outcome.error == Configuration(MaxPoolSizeNotPositive)
      ensures Current() == if outcome.Pass? then old(Current()).(maxThreadPoolSize := size) else old(Current())
    {
      if size < 1 {
        return Fail(Configuration(MaxPoolSizeNotPositive));
      }
      maxThreadPoolSize := size;
      outcome := Pass;
    }

    /** setCorePoolSize: at least 1; the maximum is not compared. */
    method SetCorePoolSize(size: int32) returns (outcome: Outcome<Error>)
      requires Valid()
      modifies this
      ensures Valid()
      ensures outcome.Pass? <==> size >= 1
      ensures outcome.Fail? ==> outcome.error == Configuration(CorePoolSizeNotPositive)
      ensures Current() == if outcome.Pass? then old(Current()).(corePoolSize := size) else old(Current())
    {
      if size < 1 {
        return Fail(Configuration(CorePoolSizeNotPositive));
      }
      corePoolSize := size;
      outcome := Pass;
    }

    /** setQueueCapacity: zero is allowed, negative is not. */
    method SetQueueCapacity(capacity: int32) returns (outcome: Outcome<Error>)
      requires Valid()
      modifies this
      ensures Valid()
      ensures outcome.Pass? <==> capacity >= 0
      ensures outcome.Fail? ==> outcome.error == Configuration(QueueCapacityNegative)
      ensures Current() == if outcome.Pass? then old(Current()).(queueCapacity := capacity) else old(Current())
    {
      if capacity < 0 {
        return Fail(Configuration(QueueCapacityNegative));
      }
      queueCapacity := capacity;
      outcome := Pass;
    }

    /** setEnableCaching: null is rejected. */
    method SetEnableCaching(flag: Option<bool>) returns (outcome: Outcome<Error>)
      requires Valid()
      modifies this
      ensures Valid()
      ensures outcome.Pass? <==> flag.Some?
      ensures outcome.Fail? ==> outcome.error == Configuration(CachingFlagNull)
      ensures Current() == if outcome.Pass? then old(Current()).(enableCaching := flag.value) else old(Current())
    {
      if flag.None? {
        return Fail(Configuration(CachingFlagNull));
      }
      enableCaching := flag.value;
      outcome := Pass;
    }

    /** setThreadNamePrefix: null or trim-empty is rejected; the prefix is stored
        untrimmed. */
    method SetThreadNamePrefix(prefix: Option<string>) returns (outcome: Outcome<Error>)
      requires Valid()
      modifies this
      ensures Valid()
      ensures outcome.Pass? <==> prefix.Some? && Trim(prefix.value) != []
      ensures outcome.Fail? ==> outcome.error == Configuration(ThreadNamePrefixEmpty)
      ensures Current() == if outcome.Pass? then old(Current()).(threadNamePrefix := prefix.value) else old(Current())
    {
      if prefix.None? || Trim(prefix.value) == [] {
        return Fail(Configuration(ThreadNamePrefixEmpty));
      }
      threadNamePrefix := prefix.value;
      outcome := Pass;
    }
  }
}
