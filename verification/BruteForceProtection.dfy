/** The protector as the source writes it: record objects rewritten in place inside two maps.
    Every method is proved to do what its counterpart in BruteForceModel does. */
module BruteForceProtection {
  import opened Options
  import opened Model = BruteForceModel

  class FailureLog {
    var failures: seq<real>
    var totalCount: nat
    const firstFailure: real
    var lastFailure: real

    function View(): FailureRecord
      reads this
    {
      FailureRecord(failures, totalCount, firstFailure, lastFailure)
    }

    constructor (now: real)
      ensures View() == FailureRecord([], 0, now, now)
    {
      failures, totalCount, firstFailure, lastFailure := [], 0, now, now;
    }

    method Append(now: real)
      modifies this
      ensures View() == FailureRecord(old(failures) + [now], old(totalCount) + 1, firstFailure, now)
    {
      failures, totalCount, lastFailure := failures + [now], totalCount + 1, now;
    }

    /** `cleanupOldFailures`: rebuild the list, keeping the entries after the cutoff. */
    method CleanupOldFailures(config: Config, prunedAt: real)
      modifies this
      ensures View() == Prune(old(View()), config, prunedAt)
    {
      if |failures| == 0 {
        return;
      }
      var cutoff := prunedAt - config.timeWindow;
      var validFailures := [];
      for i := 0 to |failures|
        invariant validFailures == StrictlyAfter(failures[..i], cutoff)
      {
        assert failures[..i + 1][..i] == failures[..i];
        if failures[i] > cutoff {
          validFailures := validFailures + [failures[i]];
        }
      }
      assert failures[..|failures|] == failures;
      failures := validFailures;
    }
  }

  /** The log map while a cleanup still has to visit `pending`. */
  ghost function PartlyPruned(logs: map<string, FailureRecord>, config: Config, cleanedAt: string -> real, pending: set<string>)
    : map<string, FailureRecord>
  {
    map ip | ip in logs && (ip in pending || Prune(logs[ip], config, cleanedAt(ip)).failures != [])
      :: if ip in pending then logs[ip] else Prune(logs[ip], config, cleanedAt(ip))
  }

  lemma PartlyPrunedStep(logs: map<string, FailureRecord>, config: Config, cleanedAt: string -> real, pending: set<string>, ip: string)
    requires ip in pending && pending <= logs.Keys
    ensures var partly, pruned := PartlyPruned(logs, config, cleanedAt, pending), Prune(logs[ip], config, cleanedAt(ip));
            && pending <= partly.Keys && partly[ip] == logs[ip]
            && PartlyPruned(logs, config, cleanedAt, pending - {ip})
            == if pruned.failures == [] then partly - {ip} else partly[ip := pruned]
  {
    hide Prune;
  }

  lemma PartlyPrunedEnds(p: Protector, config: Config, cleanedAt: string -> real)
    ensures PartlyPruned(p.failures, config, cleanedAt, p.failures.Keys) == p.failures
    ensures PartlyPruned(p.failures, config, cleanedAt, {}) == CleanupStep(p, config, 0.0, cleanedAt).failures
  {
    hide Prune;
  }

  class BruteForceProtector {
    const config: Config
    var failures: map<string, FailureLog>
    var bannedIPs: map<string, BanRecord>

    ghost predicate Valid()
      reads this
    {
      forall j, k :: j in failures && k in failures && failures[j] == failures[k] ==> j == k
    }

    ghost function View(): Protector
      reads this, failures.Values
    {
      Protector(map ip | ip in failures :: failures[ip].View(), bannedIPs)
    }

    constructor (config: Config)
      ensures Valid() && View() == NO_RECORDS && this.config == config && failures == map[]
    {
      this.config := config;
      failures, bannedIPs := map[], map[];
    }

    method FindOrCreate(ip: string, now: real) returns (record: FailureLog)
      requires Valid()
      modifies this`failures
      ensures Valid() && fresh(failures.Values - old(failures.Values))
      ensures ip in failures && failures[ip] == record && failures.Keys == old(failures.Keys) + {ip}
      ensures record.View() == if ip in old(failures) then old(failures[ip].View()) else FailureRecord([], 0, now, now)
      ensures forall who :: who in old(failures) ==> failures[who] == old(failures[who])
    {
      if ip !in failures {
        var created := new FailureLog(now);
        failures := failures[ip := created];
      }
      record := failures[ip];
    }

    /** The part of RecordFailure under the failure lock: log, count and prune. */
    method LogFailure(ip: string, at: real, prunedAt: real) returns (record: FailureLog)
      requires Valid()
      modifies this`failures, failures.Values
      ensures Valid() && fresh(failures.Values - old(failures.Values))
      ensures record.View() == Recorded(old(View()), config, ip, at, prunedAt)
      ensures View().failures == old(View()).failures[ip := record.View()]
    {
      hide Prune;
      record := FindOrCreate(ip, at);
      record.Append(at);
      record.CleanupOldFailures(config, prunedAt);
    }

    method RecordFailure(ip: string, at: real, prunedAt: real, bannedAt: real) returns (banned: bool)
      requires Valid()
      modifies this, failures.Values
      ensures Valid() && fresh(failures.Values - old(failures.Values))
      ensures (banned, View()) == FailureStep(old(View()), config, ip, at, prunedAt, bannedAt)
    {
      hide Recorded, StrictlyAfter;
      var record := LogFailure(ip, at, prunedAt);
      ghost var logged := View().failures;
      var recentFailures, totalCount := |record.failures|, record.totalCount;
      if totalCount >= config.permanentBanAt {
        BanFor(ip, 0.0, totalCount, bannedAt);
        banned := true;
      } else if recentFailures >= config.maxFailures {
        BanFor(ip, config.banDuration, totalCount, bannedAt);
        banned := true;
      } else {
        banned := false;
      }
      assert View().failures == logged;
    }

    /** `banIP` */
    method BanFor(ip: string, duration: real, count: nat, now: real)
      modifies this`bannedIPs
      ensures bannedIPs == old(bannedIPs)[ip := NewBan(duration, count, now)]
    {
      var expiresAt := None;
      if duration > 0.0 {
        expiresAt := Some(now + duration);
      }
      bannedIPs := bannedIPs[ip := BanRecord(now, expiresAt, count)];
    }

    method BanIP(ip: string, duration: real, now: real)
      requires Valid()
      modifies this`bannedIPs
      ensures Valid() && failures == old(failures) && View() == BanStep(old(View()), ip, duration, now)
    {
      var count := 0;
      if ip in failures {
        count := failures[ip].totalCount;
      }
      BanFor(ip, duration, count, now);
    }

    method UnbanIP(ip: string)
      requires Valid()
      modifies this`bannedIPs
      ensures Valid() && failures == old(failures) && View() == old(View()).(banned := old(View()).banned - {ip})
    {
      bannedIPs := bannedIPs - {ip};
    }

    method RecordSuccess(ip: string)
      requires Valid()
      modifies this`failures
      ensures Valid() && failures.Values <= old(failures.Values)
      ensures View() == old(View()).(failures := old(View()).failures - {ip})
    {
      failures := failures - {ip};
      assert View().failures == old(View()).failures - {ip};
    }

    /** `IsBanned` with the unban it starts for an expired entry. */
    method IsBannedNow(ip: string, now: real) returns (banned: bool)
      requires Valid()
      modifies this`bannedIPs
      ensures Valid() && failures == old(failures)
      ensures banned == IsBanned(old(View()), ip, now)
      ensures View() == CheckStep(old(View()), ip, now)
    {
      if ip !in bannedIPs {
        return false;
      }
      var record := bannedIPs[ip];
      if record.expiresAt.Some? && now > record.expiresAt.value {
        UnbanIP(ip);
        return false;
      }
      return true;
    }

    /** `cleanup` */
    method CleanupAll(now: real, cleanedAt: string -> real)
      requires Valid()
      modifies this, failures.Values
      ensures Valid() && failures.Values <= old(failures.Values)
      ensures View() == CleanupStep(old(View()), config, now, cleanedAt)
    {
      hide Prune;
      CleanupFailures(cleanedAt);
      ghost var pruned := View().failures;
      CleanupBans(now);
      assert View().failures == pruned;
    }

    method CleanupFailures(cleanedAt: string -> real)
      requires Valid()
      modifies this`failures, failures.Values
      ensures Valid() && failures.Values <= old(failures.Values)
      ensures View().failures == CleanupStep(old(View()), config, 0.0, cleanedAt).failures
    {
      hide Prune, PartlyPruned, CleanupStep;
      ghost var before := View();
      ghost var logs := before.failures;
      assert logs.Keys == failures.Keys;
      PartlyPrunedEnds(before, config, cleanedAt);
      var pending := failures.Keys;
      while pending != {}
        invariant Valid() && pending <= logs.Keys
        invariant failures.Values <= old(failures.Values)
        invariant View().failures == PartlyPruned(logs, config, cleanedAt, pending)
        decreases |pending|
      {
        var ip :| ip in pending;
        PartlyPrunedStep(logs, config, cleanedAt, pending, ip);
        assert ip in View().failures;
        CleanupOne(ip, cleanedAt(ip));
        pending := pending - {ip};
      }
    }

    method CleanupOne(ip: string, prunedAt: real)
      requires Valid() && ip in failures
      modifies this`failures, failures.Values
      ensures Valid() && failures.Values <= old(failures.Values)
      ensures var pruned := Prune(old(View()).failures[ip], config, prunedAt);
              View().failures == if pruned.failures == [] then old(View()).failures - {ip}
                                 else old(View()).failures[ip := pruned]
    {
      hide Prune;
      ghost var before := View().failures;
      failures[ip].CleanupOldFailures(config, prunedAt);
      assert View().failures == before[ip := Prune(before[ip], config, prunedAt)];
      if |failures[ip].failures| == 0 {
        failures := failures - {ip};
        assert View().failures == before - {ip};
      }
    }

    method CleanupBans(now: real)
      modifies this`bannedIPs
      ensures bannedIPs == map ip | ip in old(bannedIPs) && !Expired(old(bannedIPs)[ip], now) :: old(bannedIPs)[ip]
    {
      var pending := bannedIPs.Keys;
      ghost var before := bannedIPs;
      while pending != {}
        invariant pending <= bannedIPs.Keys <= before.Keys
        invariant forall ip :: ip in bannedIPs ==> bannedIPs[ip] == before[ip]
        invariant forall ip :: ip in before && ip !in pending ==> (ip in bannedIPs <==> !Expired(before[ip], now))
        decreases |pending|
      {
        var ip :| ip in pending;
        var record := bannedIPs[ip];
        if record.expiresAt.Some? && now > record.expiresAt.value {
          bannedIPs := bannedIPs - {ip};
        }
        pending := pending - {ip};
      }
    }
  }
}
