/** Sending the same files again. */
module Resend {
  import opened Protocol
  import opened Names
  import opened Receiver
  import opened Sender
  import opened Delivery

  ghost predicate DistinctBaseNames(jobs: seq<Job>) {
    forall i, j :: 0 <= i < j < |jobs| ==> Base(jobs[i].source.fileName) != Base(jobs[j].source.fileName)
  }

  /** Files with distinct, unused base names are stored under these names: none is renamed. */
  lemma {:induction false} NoneRenamed(disk: Disk, files: seq<Job>)
    requires DistinctBaseNames(files)
    requires forall i :: 0 <= i < |files| ==> Base(files[i].source.fileName) !in disk
    ensures forall i :: 0 <= i < |files| ==>
      var name := Base(files[i].source.fileName);
      name in Stored(disk, files) && Stored(disk, files)[name] == Contents(files[i])
    decreases |files|
  {
    if files != [] {
      var name, rest := Base(files[0].source.fileName), files[1..];
      assert Candidate(files[0].source.fileName, 0) == name;
      UniqueNameIsFirstFree(disk.Keys, files[0].source.fileName, 0);
      var disk1 := disk[name := Contents(files[0])];
      assert forall i :: 0 <= i < |rest| ==> rest[i] == files[i + 1];
      NoneRenamed(disk1, rest);
      StoredIsFresh(disk1, rest);
      assert name in disk1;
    }
  }

  lemma {:induction false} AllAccepted(jobs: seq<Job>, tokens: map<string, Uuid>)
    requires forall job :: job in jobs ==> job.source.id in tokens
    ensures Accepted(jobs, tokens) == jobs
  {
    if jobs != [] {
      assert jobs[0] in jobs;
      AllAccepted(jobs[1..], tokens);
    }
  }

  ghost predicate SameSources(a: seq<Job>, b: seq<Job>) {
    |a| == |b| && forall i :: 0 <= i < |a| ==> a[i].source == b[i].source
  }

  lemma {:induction false} SameAnnouncement(a: seq<Job>, b: seq<Job>)
    requires SameSources(a, b)
    ensures Announced(a) == Announced(b)
  {
    if a != [] {
      SameAnnouncement(a[1..], b[1..]);
    }
  }

  /** After a successful transfer of files whose base names are distinct and were free, all of them accepted,
      sending them again, whatever the transfers would meet, is answered 204: every file is reported as sent and
      neither the directory nor the session table changes. */
  lemma IdempotentResend(cfg: Config, me: Identity, st: State, jobs: seq<Job>, env: Environment,
                         again: seq<Job>, env': Environment)
    requires Grants(cfg, me, st, jobs, env) && Trusted(cfg, me) && DistinctIds(jobs)
    requires forall job :: job in jobs ==> Honest(cfg, job)
    requires forall job :: job in jobs ==> job.source.id in env.tokens
    requires DistinctBaseNames(jobs)
    requires forall i :: 0 <= i < |jobs| ==> Base(jobs[i].source.fileName) !in st.disk
    requires SendFiles(cfg, me, st, jobs, env).error.None?
    requires SameSources(again, jobs) && env'.fate == Answered
    ensures var st' := SendFiles(cfg, me, st, jobs, env).state;
      SendFiles(cfg, me, st', again, env') == Outcome(st', AllSent(again), None)
  {
    var st' := SendFiles(cfg, me, st, jobs, env).state;
    assert Announced(jobs) != map[];
    DeliveredAll(cfg, me, st, jobs, env);
    NoneRenamed(st.disk, jobs);
    StoredAreDuplicates(cfg, st'.disk, jobs);
    SameAnnouncement(again, jobs);
    assert Gate(cfg, st', PrepareOf(me, again), env'.now) == Some(STATUS_NO_CONTENT);
  }

  lemma DeliveredAll(cfg: Config, me: Identity, st: State, jobs: seq<Job>, env: Environment)
    requires Grants(cfg, me, st, jobs, env) && Trusted(cfg, me) && DistinctIds(jobs)
    requires forall job :: job in jobs ==> Honest(cfg, job)
    requires forall job :: job in jobs ==> job.source.id in env.tokens
    requires SendFiles(cfg, me, st, jobs, env).error.None?
    ensures SendFiles(cfg, me, st, jobs, env).state.disk == Stored(st.disk, jobs)
  {
    AllAccepted(jobs, env.tokens);
    ExactDelivery(cfg, me, st, jobs, env);
  }

  lemma StoredAreDuplicates(cfg: Config, disk: Disk, jobs: seq<Job>)
    requires DistinctIds(jobs) && Announced(jobs) != map[]
    requires forall job :: job in jobs ==> Honest(cfg, job)
    requires forall i :: 0 <= i < |jobs| ==>
      Base(jobs[i].source.fileName) in disk && disk[Base(jobs[i].source.fileName)] == Contents(jobs[i])
    ensures AllDuplicate(disk, Announced(jobs))
  {
    DistinctAnnounced(jobs);
    var files := Announced(jobs);
    forall id | id in files
      ensures var name := Base(files[id].fileName); name in disk && |disk[name]| == files[id].size
    {
      var job :| job in jobs && job.source.id == id;
      var i :| 0 <= i < |jobs| && jobs[i] == job;
      assert Honest(cfg, job);
    }
  }
}
