// `persist_objects` and `commit_refs` as they run (crates/duckfs/disk/src/commit.rs:37-124), any of
// their writes failing.
module Committing {
  import opened Wrappers
  import opened Kinds
  import opened RefsImage
  import opened Marking
  import opened Durability

  // Which writes fail this time: the put before this one succeeds, the directory sync, the refs
  // save, the sweep part-way, the watermark save.
  datatype Faults = Faults(putsThatWork: nat, syncWorks: bool, saveWorks: bool, removalsThatWork: nat,
      watermarkWorks: bool)

  class Committer {
    const contents: Contents
    var now: Machine
    var gcFaulted: bool

    constructor (contents: Contents)
      ensures this.contents == contents && now == BLANK && !gcFaulted && Safe(contents, now)
    {
      this.contents := contents;
      now, gcFaulted := BLANK, false;
      BlankIsSafe(contents);
    }

    method Do(e: Event)
      requires Safe(contents, now) && Enabled(contents, now, e)
      modifies this`now
      ensures Safe(contents, now) && now == Next(contents, old(now), e)
    {
      StepIsSafe(contents, now, e);
      now := Next(contents, now, e);
    }

    // Every object is put and the directories synced, or the block is given up with nothing saved.
    method PersistObjects(objects: seq<Id>, refs: Refs, height: nat, faults: Faults) returns (ok: bool)
      requires Safe(contents, now) && Enabled(contents, now, Begin(objects, refs, height))
      modifies this`now
      ensures Safe(contents, now) && now.saved == old(now.saved) && now.memory == old(now.memory)
          && now.watermark == old(now.watermark)
      ensures ok <==> |objects| <= faults.putsThatWork && faults.syncWorks
      ensures now.phase == if ok then Synced(refs, height) else Idle
      ensures ok ==> now.durable == old(now.seen) + (set id | id in objects)
    {
      hide Safe, Sane, Mark, RootsOf, StoreOf, WindowOf, GcDue, SavedRefs, SavedWatermark;
      Do(Begin(objects, refs, height));
      var done := 0;
      while done < |objects|
        invariant done <= |objects| && Safe(contents, now) && now.phase == Putting(objects[done..], refs, height)
        invariant done <= faults.putsThatWork
        invariant now.saved == old(now.saved) && now.memory == old(now.memory) && now.watermark == old(now.watermark)
        invariant now.seen + (set id | id in objects[done..]) == old(now.seen) + (set id | id in objects)
      {
        if done >= faults.putsThatWork {
          Do(Fail);
          return false;
        }
        assert objects[done..] == [objects[done]] + objects[done + 1..];
        Do(PutNext);
        done := done + 1;
      }
      if !faults.syncWorks {
        Do(Fail);
        return false;
      }
      assert objects[done..] == [];
      Do(SyncDirs);
      ok := true;
    }

    // Removes what the mark left over, one object at a time, until a removal fails.
    method SweepAll(removalsThatWork: nat)
      requires Safe(contents, now) && now.phase.Sweeping?
      modifies this
      ensures Safe(contents, now) && now.phase == Sweeping({}, old(now.phase.height))
      ensures now.memory == old(now.memory) && now.watermark == old(now.watermark) && now.saved == old(now.saved)
      ensures now.attempts == old(now.attempts)
      ensures old(now.seen) - old(now.phase.todo) <= now.seen <= old(now.seen)
      ensures !gcFaulted ==> now.seen == old(now.seen) - old(now.phase.todo)
      ensures old(gcFaulted) || old(now.phase.todo) == {} ==> gcFaulted == old(gcFaulted)
    {
      hide Safe, Sane;
      var done := 0;
      while now.phase.todo != {}
        invariant Safe(contents, now) && now.phase.Sweeping? && now.phase.height == old(now.phase.height)
        invariant now.memory == old(now.memory) && now.watermark == old(now.watermark) && now.saved == old(now.saved)
        invariant now.attempts == old(now.attempts)
        invariant now.phase.todo <= old(now.phase.todo)
        invariant old(now.seen) - old(now.phase.todo) <= now.seen <= old(now.seen)
        invariant !gcFaulted ==> now.seen == old(now.seen) - (old(now.phase.todo) - now.phase.todo)
        invariant old(gcFaulted) || old(now.phase.todo) == {} ==> gcFaulted == old(gcFaulted)
        decreases now.phase.todo
      {
        if done >= removalsThatWork {
          gcFaulted := true;
          Do(StopSweep);
        } else {
          var id :| id in now.phase.todo;
          Do(RemoveOne(id));
          done := done + 1;
        }
      }
    }

    // Saves, adopts, and sweeps if a sweep is due. The block has failed (None) only where a save
    // has: a sweep that cannot mark or stops part-way costs nothing but disk.
    method CommitRefs(faults: Faults) returns (watermark: Option<nat>)
      requires Safe(contents, now) && now.phase.Synced?
      modifies this
      ensures Safe(contents, now) && now.phase.Idle?
      ensures var refs, height := old(now.phase.refs), old(now.phase.height);
        var due := GcDue(height, old(now.watermark));
        && (watermark.Some? <==> faults.saveWorks && (due ==> faults.watermarkWorks))
        && (watermark.Some? ==> watermark.value == now.watermark == if due then height else old(now.watermark))
        && (faults.saveWorks ==> now.memory == refs && SavedRefs(now) == refs)
        && (!faults.saveWorks ==> now == old(now).(phase := Idle) && gcFaulted == old(gcFaulted))
        && (faults.saveWorks && !due ==> now.seen == old(now.seen) && gcFaulted == old(gcFaulted))
        && (faults.saveWorks && due ==>
              var live := Mark(StoreOf(contents, old(now.seen)), RootsOf(refs));
              && (live.None? ==> now.seen == old(now.seen) && gcFaulted)
              && (live.Some? ==> old(now.seen) * live.value <= now.seen <= old(now.seen)
                                 && (!gcFaulted ==> now.seen == old(now.seen) * live.value)))
    {
      hide Safe, Sane, Mark, RootsOf, StoreOf, WindowOf;
      var refs, height := now.phase.refs, now.phase.height;
      if !faults.saveWorks {
        Do(Fail);
        return None;
      }
      Do(SaveRefs);
      Do(AdoptRefs);
      var due := GcDue(height, now.watermark);
      Do(CheckGc);
      if !due {
        return Some(now.watermark);
      }
      gcFaulted := Mark(StoreOf(contents, now.seen), RootsOf(now.memory)).None?;
      SweepAll(faults.removalsThatWork);
      SavedMatches();
      if !faults.watermarkWorks {
        Do(Fail);
        return None;
      }
      Do(SaveWatermark);
      watermark := Some(height);
    }

    lemma SavedMatches()
      requires Safe(contents, now) && !now.phase.Saved?
      ensures SavedRefs(now) == now.memory
    {
    }
  }
}
