/** The two concrete writers as jobs of the locked-writer protocol. */
module Writers {
  import opened Base
  import opened Vault
  import WriteProtocol
  import Reingest
  import Fill
  import FillHandler

  function IngestJob(f: Reingest.Fetch): WriteProtocol.Job {
    WriteProtocol.Job(f.id, Some(f.provenance))
  }

  function FillJob(id: string, ops: seq<Fill.Op>, source: string, now: int): WriteProtocol.Job {
    WriteProtocol.Job(id, if FillHandler.HasSet(ops) then Some(Provenance(source, None, Some(now), true)) else None)
  }

  /** What a job adds to the list it read. */
  function Extended(seen: seq<Provenance>, job: WriteProtocol.Job): seq<Provenance> {
    seen + if job.entry.Some? then [job.entry.value] else []
  }

  function ListOf(existing: Option<Entity>): seq<Provenance> {
    if existing.Some? then existing.value.provenance else []
  }

  /** The files an ingest and a fill write carry the provenance they read plus their job's entry. */
  lemma WritersAreJobs(existing: Option<Entity>, f: Reingest.Fetch, e: Entity, fill: Fillable, ops: seq<Fill.Op>,
                       source: string, now: int)
    ensures Reingest.Merged(existing, f).provenance == Extended(ListOf(existing), IngestJob(f))
    ensures FillHandler.Filled(e, fill, ops, source, now).provenance ==
              Extended(e.provenance, FillJob(e.id, ops, source, now))
    ensures FillJob(e.id, ops, source, now).entry.Some? <==> exists i :: 0 <= i < |ops| && ops[i].OpSet?
  {
  }
}
