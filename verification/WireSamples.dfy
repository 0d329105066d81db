/** One message of each kind, as the bytes it has on the wire. */
module WireSamples {
  import opened Base
  import opened Decimal
  import opened Wire
  import opened Chunks
  import opened Diff
  import opened Codec
  import opened Messages

  lemma OneDigit(n: nat)
    requires n < 10
    ensures NumberText(n) == [(48 + n) as byte, 10]
  {
  }

  lemma HelloSample()
    ensures FrameOf(Greeting(Hello(Text("n1"), Text("pc"), Text("v"))))
            == Frame(0, Text("2\nn1\n2\npc\n1\nv\n"))
  {
    OneDigit(1);
    OneDigit(2);
    hide NumberText;
  }

  const SAMPLE_CHUNK := ChunkEntry(3, 7, 4, Text("h"))
  const SAMPLE_SUMMARY := ManifestEntry(Text("id"), Text("a"), Text("r"), 5, 6, 1)

  lemma ChunkSample()
    ensures ChunksText([SAMPLE_CHUNK]) == Text("3\n7\n4\n1\nh\n")
  {
    OneDigit(3);
    OneDigit(7);
    OneDigit(4);
    OneDigit(1);
    hide NumberText;
  }

  lemma SummarySample()
    ensures SummaryText(SAMPLE_SUMMARY) == Text("2\nid\n1\na\n1\nr\n5\n6\n")
  {
    OneDigit(2);
    OneDigit(1);
    OneDigit(5);
    OneDigit(6);
    hide NumberText;
  }

  lemma CountOfOne()
    ensures NumberText(1) == Text("1\n")
  {
    OneDigit(1);
  }

  lemma OneFile(f: ManifestFile)
    ensures ManifestText([f])
            == NumberText(1) + (SummaryText(f.summary) + NumberText(|f.chunks|) + ChunksText(f.chunks))
  {
    hide NumberText, SummaryText, ChunksText;
    assert [f][..|[f]| - 1] == [];
    assert FilesText([f]) == FilesText([]) + FileText(f);
    assert [] + FileText(f) == FileText(f);
  }

  lemma ManifestSample()
    ensures FrameOf(Manifest([ManifestFile(SAMPLE_SUMMARY, [SAMPLE_CHUNK])]))
            == Frame(1, Text("1\n") + (Text("2\nid\n1\na\n1\nr\n5\n6\n") + Text("1\n") + Text("3\n7\n4\n1\nh\n")))
  {
    hide Text, NumberText, SummaryText, ChunksText, ManifestText;
    CountOfOne();
    SummarySample();
    ChunkSample();
    OneFile(ManifestFile(SAMPLE_SUMMARY, [SAMPLE_CHUNK]));
  }

  lemma RequestSample()
    ensures FrameOf(Ask(ChunksRequest(Text("id"), Text("a"), Text("r"), [SAMPLE_CHUNK])))
            == Frame(2, Text("2\nid\n1\na\n1\nr\n") + Text("1\n") + Text("3\n7\n4\n1\nh\n"))
  {
    OneDigit(2);
    OneDigit(1);
    ChunkSample();
    hide NumberText, ChunksText;
  }

  /** Lists go on the wire from the front. */
  lemma {:induction false} ChunksInOrder(a: seq<ChunkEntry>, b: seq<ChunkEntry>)
    ensures ChunksText(a + b) == ChunksText(a) + ChunksText(b)
  {
    hide ChunkText;
    if b == [] {
      assert a + b == a;
    } else {
      ChunksInOrder(a, b[..|b| - 1]);
      assert (a + b)[..|a + b| - 1] == a + b[..|b| - 1];
    }
  }

  lemma {:induction false} FilesInOrder(a: seq<ManifestFile>, b: seq<ManifestFile>)
    ensures FilesText(a + b) == FilesText(a) + FilesText(b)
  {
    hide FileText;
    if b == [] {
      assert a + b == a;
    } else {
      FilesInOrder(a, b[..|b| - 1]);
      assert (a + b)[..|a + b| - 1] == a + b[..|b| - 1];
    }
  }

  lemma HeaderSample()
    ensures HeaderText(ChunkHeader(Text("id"), Text("h"), 3, 7, 4)) == Text("2\nid\n1\nh\n3\n7\n4\n")
  {
    OneDigit(1);
    OneDigit(2);
    OneDigit(3);
    OneDigit(4);
    OneDigit(7);
    hide NumberText;
  }

  lemma DataSample()
    ensures FrameOf(Deliver(ChunkData(ChunkHeader(Text("id"), Text("h"), 3, 7, 4), Text("data"))))
            == Frame(3, Text("2\nid\n1\nh\n3\n7\n4\n") + Text("4\ndata\n"))
  {
    HeaderSample();
    OneDigit(4);
    hide HeaderText, NumberText;
  }

  lemma AckSample()
    ensures FrameOf(Acknowledge(SyncAck(Text("id"), Text("a"), true, Text("done"))))
            == Frame(4, Text("2\nid\n1\na\n1\n4\ndone\n"))
  {
  }

  lemma ErrorSample()
    ensures FrameOf(Complain(Text("bad"))) == Frame(5, Text("3\nbad\n"))
  {
  }
}
