/**
 * What a batch response means when the batch's resumed items are run by the
 * crash-safe uploader: whichever way an item got its response, a session of its
 * own was completed.
 */
module UploadResults {
  import opened Basics
  import Batch
  import Resume

  /** The run of the single-file uploader at each item's path, up to the call the batch makes. */
  datatype Runs = Runs(env: Resume.Env, steps: Batch.Item -> seq<Resume.Step>, content: Batch.Item -> seq<byte>)

  /** The response is one that a call for these bytes returned in the item's run. */
  ghost predicate ReturnedFor(runs: Runs, item: Batch.Item, response: Batch.Response, i: nat)
  {
    var w := Resume.Run(runs.env, Resume.EMPTY, runs.steps(item));
    && i < |w.returned|
    && w.returned[i] == Resume.Returned(runs.content(item), response.uploadSessionId, response.vaultId, response.fileId)
  }

  /** Resumed items are run by the single-file uploader, for entries whose recorded hash is that of their bytes. */
  ghost predicate Resumes(runs: Runs, world: Batch.World)
  {
    && Resume.ValidEnv(runs.env)
    && (forall item :: Resume.HashedRun(runs.env, runs.steps(item)))
    && (forall item, response | world.lookup(item) == Ok(Some(response)) ::
          exists i: nat :: ReturnedFor(runs, item, response, i))
  }

  /** The server completed a session of the item's own bytes, whole, and the response names that session and file. */
  ghost predicate ResumedWhole(runs: Runs, item: Batch.Item, response: Batch.Response)
  {
    var server := Resume.Run(runs.env, Resume.EMPTY, runs.steps(item)).server;
    && response.uploadSessionId in server
    && var session := server[response.uploadSessionId];
       && session.completed.Some? && session.job.content == runs.content(item)
       && session.job.vaultId == response.vaultId && session.job.fileId == response.fileId
       && Resume.WholeCompletion(session.job, session.multipart, session.completed.value)
  }

  /**
   * Every response of a batch stands for a completed session of that very item:
   * a resumed one, whole and of the item's own bytes, or one that the server
   * started and completed in this batch under the item's client id.
   */
  lemma ResponseMeansCompleted(runs: Runs, world: Batch.World, items: seq<Batch.Item>, k: nat)
    requires Resumes(runs, world) && Batch.Distinct(items) && k < |items|
    requires Batch.BatchSpec(world, items).Ok? && Batch.BatchSpec(world, items).value[k].response.Some?
    ensures var response := Batch.BatchSpec(world, items).value[k].response.value;
            || ResumedWhole(runs, items[k], response)
            || Batch.ServerCompleted(world, items, items[k], response)
  {
    var item, response := items[k], Batch.BatchSpec(world, items).value[k].response.value;
    Batch.ResponseIsOwn(world, items, k);
    hide Batch.BatchSpec, Batch.ServerCompleted, Resume.Run, Resume.ValidEnv, Resume.HashedRun, Resume.WholeCompletion;
    if !Batch.ServerCompleted(world, items, item, response) {
      assert world.lookup(item) == Ok(Some(response));
      var i: nat :| ReturnedFor(runs, item, response, i);
      Resume.ReturnedIsCompleted(runs.env, runs.steps(item), i);
    }
  }
}
