/**
 * `DriverManager` (`src/driver_manager.rs`): drivers registered under their own names, from
 * which sessions and mappers are made. Only the default name is protected against
 * re-registration; nothing is ever removed.
 */
module DriverManagers {
  import opened Wrappers
  import opened Errors
  import opened Udbc
  import opened Sessions
  import opened Mappers

  const DEFAULT_DB_NAME: string := "default"

  /** The outcome of `register` on the registry `pools`: the result and the registry afterwards. */
  function RegisterSpec(pools: map<string, Driver>, driver: Driver): (Result<(), DbError>, map<string, Driver>) {
    if driver.name == DEFAULT_DB_NAME && driver.name in pools then
      (Err(DriverError("Driver with name '" + driver.name + "' already registered")), pools)
    else (Ok(()), pools[driver.name := driver])
  }

  /** A second default driver is refused and the first one stays. */
  lemma DefaultKept(pools: map<string, Driver>, driver: Driver)
    requires driver.name == DEFAULT_DB_NAME && DEFAULT_DB_NAME in pools
    ensures RegisterSpec(pools, driver).0 == Err(DriverError("Driver with name 'default' already registered"))
    ensures RegisterSpec(pools, driver).1 == pools
  {
    var msg := "Driver with name '" + DEFAULT_DB_NAME + "' already registered";
    assert |msg| == 45;
    assert forall i :: 0 <= i < 45 ==> msg[i] == "Driver with name 'default' already registered"[i];
    assert msg == "Driver with name 'default' already registered";
  }

  /** Any other name is registered, replacing a driver already there, and nothing else changes. */
  lemma OtherNamesReplaced(pools: map<string, Driver>, driver: Driver)
    requires driver.name != DEFAULT_DB_NAME || DEFAULT_DB_NAME !in pools
    ensures RegisterSpec(pools, driver).0.Ok?
    ensures var p := RegisterSpec(pools, driver).1;
      driver.name in p && p[driver.name] == driver
      && forall n :: n in pools && n != driver.name ==> n in p && p[n] == pools[n]
  {
  }

  /** Registration never removes a name, and a successful one makes its name present. */
  lemma {:induction false} NamesOnlyGrow(pools: map<string, Driver>, drivers: seq<Driver>)
    ensures pools.Keys <= RegisterAll(pools, drivers).Keys
    ensures forall i :: 0 <= i < |drivers| ==> drivers[i].name in RegisterAll(pools, drivers)
    decreases |drivers|
  {
    if drivers != [] {
      var p := RegisterSpec(pools, drivers[0]).1;
      NamesOnlyGrow(p, drivers[1..]);
      assert forall i :: 1 <= i < |drivers| ==> drivers[i] == drivers[1..][i - 1];
    }
  }

  /** The registry after registering `drivers` in order, whatever each registration returned. */
  function RegisterAll(pools: map<string, Driver>, drivers: seq<Driver>): map<string, Driver>
    decreases |drivers|
  {
    if drivers == [] then pools else RegisterAll(RegisterSpec(pools, drivers[0]).1, drivers[1..])
  }

  /** The first default driver registered is the one that stays. */
  lemma {:induction false} FirstDefaultStays(pools: map<string, Driver>, drivers: seq<Driver>)
    requires DEFAULT_DB_NAME in pools
    ensures DEFAULT_DB_NAME in RegisterAll(pools, drivers)
    ensures RegisterAll(pools, drivers)[DEFAULT_DB_NAME] == pools[DEFAULT_DB_NAME]
    decreases |drivers|
  {
    if drivers != [] {
      FirstDefaultStays(RegisterSpec(pools, drivers[0]).1, drivers[1..]);
    }
  }

  class DriverManager {
    var pools: map<string, Driver>

    constructor ()
      ensures pools == map[]
    {
      pools := map[];
    }

    /** Every driver is filed under its own name. */
    predicate Valid()
      reads this
    {
      forall n :: n in pools ==> pools[n].name == n
    }

    /** `register`. */
    method Register(driver: Driver) returns (r: Result<(), DbError>)
      modifies this
      ensures (r, pools) == RegisterSpec(old(pools), driver)
      ensures old(Valid()) ==> Valid()
    {
      var name := driver.name;
      if name == DEFAULT_DB_NAME && name in pools {
        return Err(DriverError("Driver with name '" + name + "' already registered"));
      }
      pools := pools[name := driver];
      r := Ok(());
    }

    /** `session_by_name`: a new session over the driver filed under `dbName`, if any. */
    method SessionByName(dbName: string) returns (s: Option<Session>)
      ensures s.Some? <==> dbName in pools
      ensures s.Some? ==> fresh(s.value) && s.value.pool == pools[dbName]
      ensures s.Some? && Valid() ==> s.value.pool.name == dbName
    {
      if dbName in pools {
        var session := new Session(pools[dbName]);
        s := Some(session);
      } else {
        s := None;
      }
    }

    /** `session`: the session of the default driver. */
    method DefaultSession() returns (s: Option<Session>)
      ensures s.Some? <==> DEFAULT_DB_NAME in pools
      ensures s.Some? ==> fresh(s.value) && s.value.pool == pools[DEFAULT_DB_NAME]
      ensures s.Some? && Valid() ==> s.value.pool.name == DEFAULT_DB_NAME
    {
      s := SessionByName(DEFAULT_DB_NAME);
    }

    /** `mapper_by_name`: a new mapper over the driver filed under `dbName`, if any. */
    method MapperByName(dbName: string) returns (m: Option<Mapper>)
      ensures m.Some? <==> dbName in pools
      ensures m.Some? ==> fresh(m.value) && m.value.pool == pools[dbName]
      ensures m.Some? && Valid() ==> m.value.pool.name == dbName
    {
      if dbName in pools {
        var mapper := new Mapper(pools[dbName]);
        m := Some(mapper);
      } else {
        m := None;
      }
    }

    /** `mapper`: the mapper of the default driver. */
    method DefaultMapper() returns (m: Option<Mapper>)
      ensures m.Some? <==> DEFAULT_DB_NAME in pools
      ensures m.Some? ==> fresh(m.value) && m.value.pool == pools[DEFAULT_DB_NAME]
      ensures m.Some? && Valid() ==> m.value.pool.name == DEFAULT_DB_NAME
    {
      m := MapperByName(DEFAULT_DB_NAME);
    }
  }
}
