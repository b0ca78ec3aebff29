/** From the client's request to the client's file: server, worker and client together. */
module GfTransfer {
  import opened Text
  import opened Wire
  import Client = GfClient
  import Server = GfServer
  import Worker = GfWorker
  import opened ChunkIndependence

  /** The client's view of a stream cut into `chunks`. */
  function Receive(chunks: seq<string>): Outcome { Perform(chunks, false) }

  /** The cut keeps the client inside its header buffer until the header `h` is complete. */
  predicate FitsFor(h: string, chunks: seq<string>) { Fits(Gathered("", chunks, |h|)) }

  ghost predicate Finished(cfg: Worker.Config, states: seq<Worker.State>, actions: seq<Worker.Action>, i: nat) {
    && Worker.Run(cfg, states, actions)
    && (forall path :: path in cfg.files ==> |cfg.files[path]| < INT_LIMIT)
    && var ws := states[|actions|].ws; i < |ws| && ws[i].pc.WDone?
  }

  /** What a finished worker has put on the wire: as much of the header as the first `write` has
      taken, and of a file that is there either everything or, with -1 as result, less. */
  lemma WorkerStream(cfg: Worker.Config, states: seq<Worker.State>, actions: seq<Worker.Action>, i: nat)
    requires Finished(cfg, states, actions, i)
    ensures i < |cfg.paths|
    ensures var w, file := states[|actions|].ws[i], Worker.Content(cfg, i);
      var header := if cfg.paths[i] in cfg.files then OkHeader(|file|, cfg.gap) else Worker.NotFoundHeader(cfg.gap);
      && w.head <= |header|
      && if w.bytes == |file| then w.out == header[..w.head] + file
         else w.bytes == -1 && exists n: nat :: n < |file| && w.out == header[..w.head] + file[..n]
  {
    Worker.RunInv(cfg, states, actions, |actions|);
    var w, file := states[|actions|].ws[i], Worker.Content(cfg, i);
    assert Worker.WorkerInv(cfg, i, w);
    assert file[..|file|] == file;
    if cfg.paths[i] in cfg.files && w.bytes != |file| {
      var n: nat :| n < |file| && Worker.Carries(OkHeader(|file|, cfg.gap), file, w.head, w.out, n);
    }
  }

  /** The worker's first `write` took the whole header. */
  ghost predicate Announced(cfg: Worker.Config, w: Worker.Worker, file: string) {
    w.head == |OkHeader(|file|, cfg.gap)|
  }

  // --- With the header that the client measures -----------------------------------------

  /** Server to client: under every interleaving of the workers, every pattern of short `pread`s
      and every way the network cuts the stream into reads, a nonempty file arrives exactly, or
      (after a failed `pread` or `write`) as a proper prefix together with an error return;
      unless the header was not written in full, which the server ignores, or the cut takes the
      client out of its header buffer. */
  lemma CanonicalTransfer(cfg: Worker.Config, states: seq<Worker.State>, actions: seq<Worker.Action>, i: nat,
                          chunks: seq<string>)
    requires Finished(cfg, states, actions, i) && cfg.gap == ""
    requires i < |cfg.paths| && cfg.paths[i] in cfg.files && cfg.files[cfg.paths[i]] != ""
    requires Announced(cfg, states[|actions|].ws[i], cfg.files[cfg.paths[i]])
    requires Concat(chunks) == states[|actions|].ws[i].out
    ensures var w, file, o := states[|actions|].ws[i], cfg.files[cfg.paths[i]], Receive(chunks);
      if !FitsFor(Client.ClientHeader(|file|), chunks) then o.end.Undefined?
      else if w.bytes == |file| then o == Outcome(Client.Ok, Client.Returned(0), |file|, |file|, file)
      else o == Outcome(Client.Ok, Client.Returned(-1), |o.written|, |file|, o.written) && o.written < file
  {
    hide Client.Run, Client.Classify, Gathered;
    var w, file := states[|actions|].ws[i], cfg.files[cfg.paths[i]];
    var header := OkHeader(|file|, "");
    WorkerStream(cfg, states, actions, i);
    assert header[..w.head] == header;
    if w.bytes == |file| {
      WholeFile(file, chunks);
    } else {
      var n: nat :| n < |file| && w.out == header + file[..n];
      EarlyClose(|file|, chunks, file[..n], false);
    }
  }

  lemma WholeFile(file: string, chunks: seq<string>)
    requires 0 < |file| < INT_LIMIT && Concat(chunks) == Client.ClientHeader(|file|) + file
    ensures if FitsFor(Client.ClientHeader(|file|), chunks) then
              Receive(chunks) == Outcome(Client.Ok, Client.Returned(0), |file|, |file|, file)
            else Receive(chunks).end.Undefined?
  {
    hide Client.Run, Client.Classify, Gathered;
    ClientHeaderFits(|file|);
    CanonicalStream(|file|, "", file, chunks, false);
    assert (Client.ClientHeader(|file|) + file)[|Client.ClientHeader(|file|)|..] == file;
  }

  /** The whole exchange, for every path that the client can ask for: the path is the path that
      the server handles, and the file at it is what the client ends up with. */
  lemma GetFile(path: string, cfg: Worker.Config, states: seq<Worker.State>, actions: seq<Worker.Action>, i: nat,
                chunks: seq<string>)
    requires "/" <= path && All(path, Server.PathChar) && Server.ClientRequest(path).Sent?
    requires Finished(cfg, states, actions, i) && cfg.gap == ""
    requires i < |cfg.paths| && Server.Receive(Server.ClientRequest(path).text) == Server.Handle(cfg.paths[i])
    requires path in cfg.files && cfg.files[path] != "" && states[|actions|].ws[i].bytes >= 0
    requires Announced(cfg, states[|actions|].ws[i], cfg.files[path])
    requires Concat(chunks) == states[|actions|].ws[i].out
    ensures var file := cfg.files[path];
      if FitsFor(Client.ClientHeader(|file|), chunks) then
        Receive(chunks) == Outcome(Client.Ok, Client.Returned(0), |file|, |file|, file)
      else Receive(chunks).end.Undefined?
  {
    hide Client.Run, Client.Classify, Gathered;
    Server.GetRoundTrip(path);
    WorkerStream(cfg, states, actions, i);
    CanonicalTransfer(cfg, states, actions, i, chunks);
  }

  /** A missing file: the worker answers with the refusal that the client knows, and the client
      reports it, under every cut. */
  lemma MissingFile(cfg: Worker.Config, states: seq<Worker.State>, actions: seq<Worker.Action>, i: nat,
                    chunks: seq<string>)
    requires Finished(cfg, states, actions, i) && cfg.gap == ""
    requires i < |cfg.paths| && cfg.paths[i] !in cfg.files && states[|actions|].ws[i].head == 26
    requires Concat(chunks) == states[|actions|].ws[i].out
    ensures states[|actions|].ws[i].out == "GETFILE FILE_NOT_FOUND\r\n\r\n"
    ensures Receive(chunks) == Outcome(Client.FileNotFound, Client.Returned(0), 0, 0, "")
  {
    hide Receive, CStr, Gathered;
    WorkerStream(cfg, states, actions, i);
    Refusals();
    RefusalTexts();
    NotFoundTexts();
    var h := Client.NOT_FOUND_HEADER;
    assert h[..26] == h && h + "" == h;
    CanonicalRefusals(chunks, h);
    assert h != Client.ERROR_HEADER;
  }

  lemma NotFoundTexts()
    ensures Worker.NotFoundHeader("") == Client.NOT_FOUND_HEADER == "GETFILE FILE_NOT_FOUND\r\n\r\n"
    ensures Worker.NotFoundHeader(" ") == Server.SendHeader(Server.Missing) == "GETFILE FILE_NOT_FOUND \r\n\r\n"
    ensures Client.ERROR_HEADER == "GETFILE ERROR\r\n\r\n"
  {
    RefusalTexts();
    Server.ServerTexts(0);
    assert "FILE_NOT_FOUND" + "" + CRLF2 == "FILE_NOT_FOUND" + CRLF2;
    assert "FILE_NOT_FOUND" + " " + CRLF2 == "FILE_NOT_FOUND " + CRLF2;
  }

  /** With this repository's own header the same answer is reported as invalid. */
  lemma RepositoryMissingFile(cfg: Worker.Config, states: seq<Worker.State>, actions: seq<Worker.Action>, i: nat,
                              chunks: seq<string>)
    requires Finished(cfg, states, actions, i) && cfg.gap == " "
    requires i < |cfg.paths| && cfg.paths[i] !in cfg.files && states[|actions|].ws[i].head == 27
    requires Concat(chunks) == states[|actions|].ws[i].out
    ensures states[|actions|].ws[i].out == "GETFILE FILE_NOT_FOUND \r\n\r\n"
    ensures Receive(chunks) == Outcome(Client.Invalid, Client.Returned(-1), 0, 0, "")
  {
    hide Receive, CStr, Gathered;
    WorkerStream(cfg, states, actions, i);
    NotFoundTexts();
    var h := Server.SendHeader(Server.Missing);
    assert |h| == 27 && h[..27] == h && h + "" == h;
    ShortStreamFits(chunks, 27);
    RepositoryRefusals(Server.Missing, chunks);
  }

  /** An empty file is announced with length zero, which the client does not accept, whatever
      follows and however it is cut. */
  lemma EmptyFile(gap: string, body: string, chunks: seq<string>)
    requires All(gap, IsBlank) && |OkHeader(0, gap)| <= Client.BUFFER_SIZE
    requires Concat(chunks) == OkHeader(0, gap) + body
    ensures if FitsFor(OkHeader(0, gap), chunks) then
              Receive(chunks) == Outcome(Client.Invalid, Client.Returned(-1), 0, 0, "")
            else Receive(chunks).end.Undefined?
  {
    hide Client.Run, Client.Classify, Gathered;
    var h := OkHeader(0, gap);
    OkHeaderText(0, gap);
    AnyHeader(h, chunks, false);
    var g := Gathered("", chunks, |h|);
    CStrBehind(h, g);
    ClassifyOk(0, gap, CStr(g));
  }

  // --- With the header that this repository's server prints -----------------------------

  /** The server's own header is one blank longer than the one the client measures, so the
      client takes the last byte of the header for the first byte of the body. */
  lemma RepositoryHeaderShifts(file: string, chunks: seq<string>)
    requires file != "" && |file| < INT_LIMIT
    requires Concat(chunks) == Server.SendHeader(Server.Found(|file|)) + file
    ensures if FitsFor(Server.SendHeader(Server.Found(|file|)), chunks) then
              Receive(chunks) == Outcome(Client.Ok, Client.Returned(0), |file|, |file|, ("\n" + file)[..|file|])
            else Receive(chunks).end.Undefined? && Receive(chunks).written == ""
  {
    hide Client.Run, Client.Classify, Gathered;
    ClientHeaderFits(|file|);
    ShiftedPayload(|file|, file);
    CanonicalStream(|file|, " ", file, chunks, false);
    UndefinedIsEmpty(chunks);
  }

  lemma UndefinedIsEmpty(chunks: seq<string>)
    ensures Receive(chunks).end.Undefined? ==> Receive(chunks).written == ""
  {
    hide Client.Run, Client.Classify, Gathered;
    AnyStream(chunks, false);
    var g := HeaderRead(chunks);
    FaultsAreEmpty(g, CStr(g), Client.Classify(CStr(g)), Concat(chunks), false);
  }

  lemma ShiftedPayload(n: nat, file: string)
    ensures |OkHeader(n, " ")| == |Client.ClientHeader(n)| + 1
    ensures (OkHeader(n, " ") + file)[|Client.ClientHeader(n)|..] == "\n" + file
  {
    var header := OkHeader(n, " ");
    OkHeaderText(n, " ");
    assert header == header[..|header| - 1] + "\n";
    assert (header + file)[|header| - 1..] == "\n" + file;
  }

  /** So a file arrives intact through this repository's own server exactly when it consists of
      nothing but newlines (and the cut is one that the client survives). */
  lemma RepositoryTransferExact(file: string, chunks: seq<string>)
    requires file != "" && |file| < INT_LIMIT
    requires Concat(chunks) == Server.SendHeader(Server.Found(|file|)) + file
    ensures Receive(chunks).written == file
      <==> FitsFor(Server.SendHeader(Server.Found(|file|)), chunks) && forall i :: 0 <= i < |file| ==> file[i] == '\n'
  {
    hide Receive;
    RepositoryHeaderShifts(file, chunks);
    var shifted := ("\n" + file)[..|file|];
    assert shifted[0] == '\n' && forall i :: 0 < i < |file| ==> shifted[i] == file[i - 1];
    if shifted == file {
      forall i | 0 <= i < |file| ensures file[i] == '\n' {
        AllNewlines(file, i);
      }
    }
  }

  lemma {:induction false} AllNewlines(file: string, i: nat)
    requires i < |file| && file == ("\n" + file)[..|file|]
    ensures file[i] == '\n'
  {
    var shifted := ("\n" + file)[..|file|];
    assert shifted[i] == if i == 0 then '\n' else file[i - 1];
    if i > 0 {
      AllNewlines(file, i - 1);
    }
  }

  /** A concrete loss: the file "ab" arrives as a newline and an "a", with a success return. */
  lemma RepositoryTransferLosesData()
    ensures Receive([Server.SendHeader(Server.Found(2)) + "ab"]).written == "\na" != "ab"
    ensures Receive([Server.SendHeader(Server.Found(2)) + "ab"]).end == Client.Returned(0)
  {
    hide Client.Run, Client.Classify, Gathered;
    var h := Server.SendHeader(Server.Found(2));
    var chunks := [h + "ab"];
    assert Concat(chunks) == chunks[0] + "" == chunks[0];
    ClientHeaderFits(2);
    ShiftedPayload(2, "ab");
    ShortStreamFits(chunks, |h|);
    RepositoryHeaderShifts("ab", chunks);
    assert ("\n" + "ab")[..2] == "\na";
  }

  // --- Refusals -------------------------------------------------------------------------

  /** A line that is no success header, whatever the same read brings behind it. */
  lemma RefusalText(word: string, g: string)
    requires word != "" && word[0] != 'O' && !IsSpace(word[0]) && All(word, LineChar)
    requires "GETFILE " + (word + CRLF2) <= g
    ensures HeaderText("GETFILE " + (word + CRLF2))
    ensures "GETFILE " + (word + CRLF2) <= CStr(g)
    ensures CStr(g) == "GETFILE " + (word + CRLF2) <==>
      |g| == |word| + 12 || g[|word| + 12] == '\0'
    ensures !Client.ScanOk(CStr(g)).Match?
  {
    var h := "GETFILE " + (word + CRLF2);
    var verb := "GETFILE ";
    assert All(verb, LineChar);
    assert h == (verb + word) + CRLF2;
    LineHeader(verb + word);
    CStrBehind(h, g);
    var behind := CStr(g)[|h|..];
    assert CStr(g) == "GETFILE " + (word + CRLF2 + behind);
    NotOk(word + CRLF2 + behind);
  }

  /** The read that completes the refusal ends with it, or brings a NUL right behind it. */
  ghost predicate EndsClean(h: string, g: string) { |g| <= |h| || g[|h|] == '\0' }

  ghost function Meaning(h: string): Client.Status {
    if h == Client.ERROR_HEADER then Client.Error else Client.FileNotFound
  }

  ghost predicate IsCanonical(h: string) { h == Client.NOT_FOUND_HEADER || h == Client.ERROR_HEADER }

  lemma Refusals()
    ensures |Client.NOT_FOUND_HEADER| == 26 && Client.NOT_FOUND_HEADER[8] == 'F'
    ensures |Client.ERROR_HEADER| == 17 && Client.ERROR_HEADER[8] == 'E'
  {
  }

  lemma ClassifyRefusal(text: string)
    requires !Client.ScanOk(text).Match?
    ensures Client.Classify(text) ==
      if text == Client.NOT_FOUND_HEADER then Client.Refused(Client.FileNotFound, 0)
      else if text == Client.ERROR_HEADER then Client.Refused(Client.Error, 0)
      else Client.Refused(Client.Invalid, -1)
  {
    hide Client.ScanOk;
  }

  lemma NotFoundVerdict(g: string)
    requires Client.NOT_FOUND_HEADER <= g
    ensures HeaderText(Client.NOT_FOUND_HEADER)
    ensures Client.Classify(CStr(g)) ==
      if EndsClean(Client.NOT_FOUND_HEADER, g) then Client.Refused(Client.FileNotFound, 0)
      else Client.Refused(Client.Invalid, -1)
  {
    hide CStr, Client.ScanOk, Client.Classify;
    RefusalTexts();
    Refusals();
    RefusalText("FILE_NOT_FOUND", g);
    assert CStr(g)[8] == Client.NOT_FOUND_HEADER[8];
    ClassifyRefusal(CStr(g));
  }

  lemma ErrorVerdict(g: string)
    requires Client.ERROR_HEADER <= g
    ensures HeaderText(Client.ERROR_HEADER)
    ensures Client.Classify(CStr(g)) ==
      if EndsClean(Client.ERROR_HEADER, g) then Client.Refused(Client.Error, 0)
      else Client.Refused(Client.Invalid, -1)
  {
    hide CStr, Client.ScanOk, Client.Classify;
    RefusalTexts();
    Refusals();
    RefusalText("ERROR", g);
    assert CStr(g)[8] == Client.ERROR_HEADER[8];
    ClassifyRefusal(CStr(g));
  }

  lemma CanonicalVerdict(h: string, g: string)
    requires IsCanonical(h) && h <= g
    ensures HeaderText(h) && |h| <= 26
    ensures Client.Classify(CStr(g))
         == if EndsClean(h, g) then Client.Refused(Meaning(h), 0) else Client.Refused(Client.Invalid, -1)
  {
    Refusals();
    if h == Client.ERROR_HEADER {
      ErrorVerdict(g);
    } else {
      NotFoundVerdict(g);
    }
  }

  /** The refusal strings that the client compares with are understood exactly when the read that
      completes the refusal ends with it, or brings a NUL right behind it; so always if nothing
      follows it, and otherwise the verdict does depend on the cut. */
  lemma CanonicalRefusals(chunks: seq<string>, h: string)
    requires IsCanonical(h) && h <= Concat(chunks)
    ensures var g := Gathered("", chunks, |h|);
      if !Fits(g) then Receive(chunks).end.Undefined?
      else if EndsClean(h, g) then Receive(chunks) == Outcome(Meaning(h), Client.Returned(0), 0, 0, "")
      else Receive(chunks) == Outcome(Client.Invalid, Client.Returned(-1), 0, 0, "")
    ensures h <= Gathered("", chunks, |h|) <= Concat(chunks)
    ensures h == Concat(chunks) ==> FitsFor(h, chunks) && EndsClean(h, Gathered("", chunks, |h|))
  {
    hide Client.Run, Client.Classify, Gathered;
    var g := Gathered("", chunks, |h|);
    assert "" + Concat(chunks) == Concat(chunks);
    GatheredPart("", chunks, |h|);
    CanonicalVerdict(h, g);
    AnyHeader(h, chunks, false);
  }

  /** ... while those that this repository's server sends never are: the client reports an
      invalid reply, and so a missing file looks like a broken server. */
  lemma RepositoryRefusals(a: Server.Answer, chunks: seq<string>)
    requires !a.Found? && Server.SendHeader(a) <= Concat(chunks)
    ensures if FitsFor(Server.SendHeader(a), chunks) then
              Receive(chunks) == Outcome(Client.Invalid, Client.Returned(-1), 0, 0, "")
            else Receive(chunks).end.Undefined?
  {
    hide Client.Run, Client.Classify, Gathered;
    var h := Server.SendHeader(a);
    var g := Gathered("", chunks, |h|);
    assert "" + Concat(chunks) == Concat(chunks);
    GatheredPart("", chunks, |h|);
    RepositoryVerdict(a, g);
    AnyHeader(h, chunks, false);
  }

  lemma RepositoryVerdict(a: Server.Answer, g: string)
    requires !a.Found? && Server.SendHeader(a) <= g
    ensures var h := Server.SendHeader(a);
      HeaderText(h) && |h| <= Client.BUFFER_SIZE && !Client.ScanOk(CStr(g)).Match?
    ensures Client.Classify(CStr(g)) == Client.Refused(Client.Invalid, -1)
  {
    var word := RefusalWord(a);
    RefusalText(word, g);
    var text, k := CStr(g), |word| + 7;
    assert text[k] == Server.SendHeader(a)[k] && text[8] == Server.SendHeader(a)[8];
    NoCanonical(text, k);
  }

  lemma RefusalWord(a: Server.Answer) returns (word: string)
    requires !a.Found?
    ensures 6 <= |word| <= 15 && word[0] in "EF" && All(word, LineChar)
    ensures Server.SendHeader(a) == "GETFILE " + (word + CRLF2)
    ensures var h, k := Server.SendHeader(a), |word| + 7;
      h[8] == (if k == 13 then 'E' else 'F') && h[k] == ' ' && (k == 13 || k == 22)
  {
    word := if a.Missing? then "FILE_NOT_FOUND " else "ERROR ";
  }

  /** The blank stands where the canonical refusals have their carriage return. */
  lemma NoCanonical(text: string, k: nat)
    requires k < |text| && text[k] == ' '
    requires if k == 13 then text[8] == 'E' else k == 22 && text[8] == 'F'
    ensures text != Client.ERROR_HEADER && text != Client.NOT_FOUND_HEADER
  {
    assert Client.ERROR_HEADER[8] == 'E' && Client.ERROR_HEADER[13] == '\r';
    assert Client.NOT_FOUND_HEADER[8] == 'F' && Client.NOT_FOUND_HEADER[22] == '\r';
  }
}
