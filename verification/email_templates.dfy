/** The email resolver of `src/app/api/generate-email/route.ts`: a fixed
    table of twelve templates keyed by (tone, length), a fallback to the
    professional/medium template for any other key, and three
    first-occurrence placeholder replacements. */
module EmailTemplates {
  import opened Wrappers
  import opened Strings

  datatype Tone = Professionnel | Amical | Formel | Persuasif
  datatype Length = Court | Moyen | Long

  /** The table's key for a tone. */
  function ToneKey(t: Tone): string {
    match t
    case Professionnel => "professionnel"
    case Amical => "amical"
    case Formel => "formel"
    case Persuasif => "persuasif"
  }

  /** The table's key for a length. */
  function LengthKey(l: Length): string {
    match l
    case Court => "court"
    case Moyen => "moyen"
    case Long => "long"
  }

  /** `templates[tone]`: the tone whose key is `s`, if any. */
  function ParseTone(s: string): (r: Option<Tone>)
    ensures r.Some? ==> ToneKey(r.value) == s
    ensures r.None? ==> forall t :: ToneKey(t) != s
  {
    if s == "professionnel" then Some(Professionnel)
    else if s == "amical" then Some(Amical)
    else if s == "formel" then Some(Formel)
    else if s == "persuasif" then Some(Persuasif)
    else None
  }

  /** `templates[tone]?.[length]`: the length whose key is `s`, if any. */
  function ParseLength(s: string): (r: Option<Length>)
    ensures r.Some? ==> LengthKey(r.value) == s
    ensures r.None? ==> forall l :: LengthKey(l) != s
  {
    if s == "court" then Some(Court)
    else if s == "moyen" then Some(Moyen)
    else if s == "long" then Some(Long)
    else None
  }

  /** Parsing a key gives back the tone it names. */
  lemma ToneKeyRoundTrip(t: Tone)
    ensures ParseTone(ToneKey(t)) == Some(t)
  {
  }

  /** Parsing a key gives back the length it names. */
  lemma LengthKeyRoundTrip(l: Length)
    ensures ParseLength(LengthKey(l)) == Some(l)
  {
  }

  const Recipient: string := "{destinataire}"
  const Body: string := "{contenu}"
  const Sender: string := "{expediteur}"

  /** The greeting word before the recipient placeholder. */
  function Greeting(t: Tone): (r: string)
    ensures Plain(r)
  {
    match t
    case Amical => "Bonjour "
    case _ => "Cher "
  }

  /** The formal templates' opening, which names no recipient. */
  function FormalOpening(): (r: string)
    ensures Plain(r)
  {
    "Madame, Monsieur,\n\n"
  }

  /** Everything before `{contenu}`: only the formal tone has no recipient. */
  function Opening(t: Tone): string {
    if t == Formel then FormalOpening()
    else Greeting(t) + Recipient + ",\n\n"
  }

  /** The prose the closings are written in, phrase by phrase;
      `Words(parts)` reads its parts one after another. */
  datatype Phrase =
    | Dispo | ToutQuestion | ToutComplement | Precision | Remercie | Cordialement
    | Bientot | Hesitez | Questions | Besoin | Ravi | Veuillez | Attente | Prie
    | Agreer | Expression | Distinguees | Invite | Discuter | Explorer | Opportunites
    | Dot
    | Words(parts: seq<Phrase>)

  /** The text of a phrase. */
  function Text(p: Phrase): string
    decreases p
  {
    match p
    case Dispo => "\n\nJe reste à votre disposition "
    case ToutQuestion => "pour toute question"
    case ToutComplement => "pour tout complément d'information"
    case Precision => " ou précision supplémentaire"
    case Remercie => "\n\nJe vous remercie de votre attention."
    case Cordialement => "\n\nCordialement,\n"
    case Bientot => "\n\nÀ bientôt,\n"
    case Hesitez => "\n\nN'hésitez pas si vous avez "
    case Questions => "des questions"
    case Besoin => " ou besoin de plus d'informations"
    case Ravi => "\n\nJe serai ravi d'échanger avec vous."
    case Veuillez => "\n\nVeuillez "
    case Attente => "\n\nDans l'attente de votre retour, "
    case Prie => "je vous prie d'"
    case Agreer => "agréer, Madame, Monsieur, "
    case Expression => "l'expression de mes salutations "
    case Distinguees => "distinguées.\n\n"
    case Invite => "\n\nJe vous invite à me contacter "
    case Discuter => "pour en discuter plus en détail"
    case Explorer => " et explorer ensemble les "
    case Opportunites => "opportunités qui s'offrent à nous"
    case Dot => "."
    case Words(parts) => Render(parts)
  }

  /** The phrases read one after another. */
  function Render(ps: seq<Phrase>): string
    decreases ps
  {
    if |ps| == 0 then [] else Text(ps[0]) + Render(ps[1..])
  }

  /** The formal salutation shared by the three formal closings. */
  const Formule: Phrase := Words([Agreer, Expression, Distinguees])

  /** The phrases between `{contenu}` and `{expediteur}`, as the table
      writes them. */
  function Phrases(t: Tone, l: Length): seq<Phrase> {
    match (t, l)
    case (Professionnel, Court) => [Cordialement]
    case (Professionnel, Moyen) => [Dispo, ToutQuestion, Dot, Cordialement]
    case (Professionnel, Long) => [Dispo, ToutQuestion, Precision, Dot, Remercie, Cordialement]
    case (Amical, Court) => [Bientot]
    case (Amical, Moyen) => [Hesitez, Questions, Dot, Bientot]
    case (Amical, Long) => [Hesitez, Questions, Besoin, Dot, Ravi, Bientot]
    case (Formel, Court) => [Veuillez, Formule]
    case (Formel, Moyen) => [Dispo, ToutComplement, Dot, Veuillez, Formule]
    case (Formel, Long) => [Dispo, ToutComplement, Precision, Dot, Attente, Prie, Formule]
    case (Persuasif, Court) => [Remercie, Cordialement]
    case (Persuasif, Moyen) => [Invite, Discuter, Dot, Cordialement]
    case (Persuasif, Long) =>
      [Invite, Discuter, Explorer, Opportunites, Dot, Dispo, ToutQuestion, Dot, Cordialement]
  }

  /** Everything between `{contenu}` and `{expediteur}`. */
  function Closing(t: Tone, l: Length): string {
    Render(Phrases(t, l))
  }

  /** Every closing is plain text. */
  lemma ClosingPlain(t: Tone, l: Length)
    ensures Plain(Closing(t, l))
  {
    RenderPlain(Phrases(t, l));
  }

  /** Every phrase is plain text (no `{`, no `$`). */
  lemma {:induction false} TextPlain(p: Phrase)
    ensures Plain(Text(p))
    decreases p
  {
    match p
    case Dispo => DispoPlain();
    case ToutQuestion => ToutQuestionPlain();
    case ToutComplement => ToutComplementPlain();
    case Precision => PrecisionPlain();
    case Remercie => RemerciePlain();
    case Cordialement => CordialementPlain();
    case Bientot => BientotPlain();
    case Hesitez => HesitezPlain();
    case Questions => QuestionsPlain();
    case Besoin => BesoinPlain();
    case Ravi => RaviPlain();
    case Veuillez => VeuillezPlain();
    case Attente => AttentePlain();
    case Prie => PriePlain();
    case Agreer => AgreerPlain();
    case Expression => ExpressionPlain();
    case Distinguees => DistingueesPlain();
    case Invite => InvitePlain();
    case Discuter => DiscuterPlain();
    case Explorer => ExplorerPlain();
    case Opportunites => OpportunitesPlain();
    case Dot => DotPlain();
    case Words(parts) => RenderPlain(parts);
  }

  lemma {:induction false} RenderPlain(ps: seq<Phrase>)
    ensures Plain(Render(ps))
    decreases ps
  {
    if |ps| > 0 {
      TextPlain(ps[0]);
      RenderPlain(ps[1..]);
    }
  }

  // One phrase at a time, so that each literal is checked on its own.
  lemma DispoPlain() ensures Plain(Text(Dispo)) { }
  lemma ToutQuestionPlain() ensures Plain(Text(ToutQuestion)) { }
  lemma ToutComplementPlain() ensures Plain(Text(ToutComplement)) { }
  lemma PrecisionPlain() ensures Plain(Text(Precision)) { }
  lemma RemerciePlain() ensures Plain(Text(Remercie)) { }
  lemma CordialementPlain() ensures Plain(Text(Cordialement)) { }
  lemma BientotPlain() ensures Plain(Text(Bientot)) { }
  lemma HesitezPlain() ensures Plain(Text(Hesitez)) { }
  lemma QuestionsPlain() ensures Plain(Text(Questions)) { }
  lemma BesoinPlain() ensures Plain(Text(Besoin)) { }
  lemma RaviPlain() ensures Plain(Text(Ravi)) { }
  lemma VeuillezPlain() ensures Plain(Text(Veuillez)) { }
  lemma AttentePlain() ensures Plain(Text(Attente)) { }
  lemma PriePlain() ensures Plain(Text(Prie)) { }
  lemma AgreerPlain() ensures Plain(Text(Agreer)) { }
  lemma ExpressionPlain() ensures Plain(Text(Expression)) { }
  lemma DistingueesPlain() ensures Plain(Text(Distinguees)) { }
  lemma InvitePlain() ensures Plain(Text(Invite)) { }
  lemma DiscuterPlain() ensures Plain(Text(Discuter)) { }
  lemma ExplorerPlain() ensures Plain(Text(Explorer)) { }
  lemma OpportunitesPlain() ensures Plain(Text(Opportunites)) { }
  lemma DotPlain() ensures Plain(Text(Dot)) { }

  /** The table entry `templates[ToneKey(t)][LengthKey(l)]`. */
  function Template(t: Tone, l: Length): string {
    Opening(t) + Body + Closing(t, l) + Sender
  }

  /** The (tone, length) pair whose template is used: the pair named by
      the keys when both are in the table, professional/medium otherwise. */
  function Resolve(tone: string, length: string): (r: (Tone, Length))
    ensures (exists t, l :: ToneKey(t) == tone && LengthKey(l) == length)
            ==> ToneKey(r.0) == tone && LengthKey(r.1) == length
    ensures (forall t :: ToneKey(t) != tone) || (forall l :: LengthKey(l) != length)
            ==> r == (Professionnel, Moyen)
  {
    match (ParseTone(tone), ParseLength(length))
    case (Some(t), Some(l)) => (t, l)
    case _ => (Professionnel, Moyen)
  }

  function Lead(): (r: string) ensures Plain(r) { "Suite à votre demande concernant \"" }
  function Tail(): (r: string) ensures Plain(r) { "\", je vous propose la solution suivante." }

  /** The body sentence that embeds the context. */
  function Content(context: string): string {
    Lead() + context + Tail()
  }

  /** The three replacements on the template for `(t, l)`. */
  function Fill(context: string, t: Tone, l: Length): string {
    ReplaceFirst(ReplaceFirst(ReplaceFirst(Template(t, l), Recipient, "Destinataire"), Body, Content(context)),
                 Sender, "Votre nom")
  }

  /** `generateEmail(context, tone, length, language)`. */
  function GenerateEmail(context: string, tone: string, length: string, language: string): string {
    var (t, l) := Resolve(tone, length);
    Fill(context, t, l)
  }

  // ----- Facts about the table -----

  /** Text that neither opens a placeholder nor carries a `$` pattern. */
  predicate Plain(s: string) {
    '{' !in s && '$' !in s
  }

  /** The three tokens are distinct placeholders. */
  lemma PlaceholdersWellFormed()
    ensures IsPlaceholder(Recipient) && IsPlaceholder(Body) && IsPlaceholder(Sender)
    ensures Recipient != Body && Recipient != Sender && Body != Sender
  {
    RecipientIsPlaceholder();
    BodyIsPlaceholder();
    SenderIsPlaceholder();
    assert Recipient[1] != Body[1] && Recipient[1] != Sender[1] && Body[1] != Sender[1];
  }

  lemma RecipientIsPlaceholder() ensures IsPlaceholder(Recipient) { }
  lemma BodyIsPlaceholder() ensures IsPlaceholder(Body) { }
  lemma SenderIsPlaceholder() ensures IsPlaceholder(Sender) { }

  /** The greeting with the recipient filled in, as it reads in every email. */
  function Salutation(t: Tone): (r: string)
    ensures Plain(r)
  {
    if t == Formel then FormalOpening()
    else Greeting(t) + "Destinataire" + ",\n\n"
  }

  /** After the opening, `{contenu}` stands first and `{expediteur}` last,
      with no other placeholder between them. */
  lemma TailOccurrences(k: string, p: string)
    requires '{' !in k && p in [Recipient, Body, Sender]
    ensures forall j :: OccursAt(Body + (k + Sender), p, j) <==>
      (p == Body && j == 0) || (p == Sender && j == |Body| + |k|)
  {
    PlaceholdersWellFormed();
    assert Sender + [] == Sender;
    if p == Body { PeelSame(Body, k + Sender); } else { PeelHole(Body, k + Sender, p); }
    PeelText(k, Sender + [], p);
    if p == Sender { PeelSame(Sender, []); } else { PeelHole(Sender, [], p); }
  }

  /** Occurrences in a template shape without a recipient. */
  lemma FrameOccurrences(o: string, k: string, p: string)
    requires '{' !in o && '{' !in k && p in [Recipient, Body, Sender]
    ensures forall j :: OccursAt(o + Body + k + Sender, p, j) <==>
      (p == Body && j == |o|) || (p == Sender && j == |o| + |Body| + |k|)
  {
    var tail := Body + (k + Sender);
    assert o + Body + k + Sender == o + tail;
    TailOccurrences(k, p);
    PeelText(o, tail, p);
  }

  /** Occurrences in a template shape with a greeting and a recipient. */
  lemma GreetingFrameOccurrences(g: string, c: string, k: string, p: string)
    requires '{' !in g && '{' !in c && '{' !in k && p in [Recipient, Body, Sender]
    ensures forall j :: OccursAt(g + Recipient + c + Body + k + Sender, p, j) <==>
      || (p == Recipient && j == |g|)
      || (p == Body && j == |g| + |Recipient| + |c|)
      || (p == Sender && j == |g| + |Recipient| + |c| + |Body| + |k|)
  {
    PlaceholdersWellFormed();
    var tail := c + Body + k + Sender;
    assert g + Recipient + c + Body + k + Sender == g + (Recipient + tail);
    FrameOccurrences(c, k, p);
    PeelText(g, Recipient + tail, p);
    if p == Recipient { PeelSame(Recipient, tail); } else { PeelHole(Recipient, tail, p); }
  }

  /** Where each placeholder stands in a template. */
  lemma TemplateFrame(t: Tone, l: Length, p: string)
    requires p in [Recipient, Body, Sender]
    ensures forall j :: OccursAt(Template(t, l), p, j) <==>
      || (p == Recipient && t != Formel && j == |Greeting(t)|)
      || (p == Body && j == |Opening(t)|)
      || (p == Sender && j == |Opening(t)| + |Body| + |Closing(t, l)|)
  {
    if t == Formel {
      FormalFrame(l, p);
    } else {
      GreetingFrame(t, l, p);
    }
  }

  lemma FormalFrame(l: Length, p: string)
    requires p in [Recipient, Body, Sender]
    ensures forall j :: OccursAt(Template(Formel, l), p, j) <==>
      || (p == Body && j == |Opening(Formel)|)
      || (p == Sender && j == |Opening(Formel)| + |Body| + |Closing(Formel, l)|)
  {
    ClosingPlain(Formel, l);
    FrameOccurrences(Opening(Formel), Closing(Formel, l), p);
  }

  lemma GreetingFrame(t: Tone, l: Length, p: string)
    requires t != Formel && p in [Recipient, Body, Sender]
    ensures forall j :: OccursAt(Template(t, l), p, j) <==>
      || (p == Recipient && j == |Greeting(t)|)
      || (p == Body && j == |Opening(t)|)
      || (p == Sender && j == |Opening(t)| + |Body| + |Closing(t, l)|)
  {
    ClosingPlain(t, l);
    var g := Greeting(t);
    assert '{' !in g;
    assert Template(t, l) == g + Recipient + ",\n\n" + Body + Closing(t, l) + Sender;
    GreetingFrameOccurrences(g, ",\n\n", Closing(t, l), p);
  }

  /** Every template holds `{contenu}` exactly once, right after the opening. */
  lemma BodyOnce(t: Tone, l: Length)
    ensures forall j :: OccursAt(Template(t, l), Body, j) <==> j == |Opening(t)|
  {
    TemplateFrame(t, l, Body);
  }

  /** Every template holds `{expediteur}` exactly once, as its last token. */
  lemma SenderLast(t: Tone, l: Length)
    ensures forall j :: OccursAt(Template(t, l), Sender, j) <==> j == |Template(t, l)| - |Sender|
  {
    TemplateFrame(t, l, Sender);
  }

  /** Only the non-formal templates hold `{destinataire}`, once, right
      after the greeting. */
  lemma RecipientOnceUnlessFormal(t: Tone, l: Length)
    ensures forall j :: OccursAt(Template(t, l), Recipient, j) <==> t != Formel && j == |Greeting(t)|
  {
    TemplateFrame(t, l, Recipient);
  }

  // ----- Facts about generated emails -----

  lemma ContentPlain(context: string)
    requires Plain(context)
    ensures Plain(Content(context))
  {
  }

  /** The recipient replacement on a template shape with a recipient. */
  lemma FillGreetingShape(g: string, k: string)
    requires '{' !in g
    ensures ReplaceFirst(g + Recipient + ",\n\n" + Body + k + Sender, Recipient, "Destinataire")
            == (g + "Destinataire" + ",\n\n") + Body + (k + Sender)
  {
    PlaceholdersWellFormed();
    var rest := ",\n\n" + Body + (k + Sender);
    AssocFive(g, Recipient, ",\n\n", Body, k + Sender);
    assert g + Recipient + ",\n\n" + Body + k + Sender == g + Recipient + ",\n\n" + Body + (k + Sender);
    assert '$' !in "Destinataire";
    ReplaceAfterPlain(g, Recipient, rest, "Destinataire");
    AssocFive(g, "Destinataire", ",\n\n", Body, k + Sender);
  }

  lemma AssocFive(a: string, b: string, c: string, d: string, e: string)
    ensures a + b + (c + d + e) == (a + b + c) + d + e
  {
  }

  /** The recipient replacement leaves a shape without a recipient as is. */
  lemma FillFormalShape(o: string, k: string)
    requires '{' !in o && '{' !in k
    ensures ReplaceFirst(o + Body + k + Sender, Recipient, "Destinataire") == o + Body + (k + Sender)
  {
    FrameOccurrences(o, k, Recipient);
  }

  /** The recipient replacement: the greeting is filled in, or left as is
      by a formal template. */
  lemma FirstStep(t: Tone, l: Length)
    ensures ReplaceFirst(Template(t, l), Recipient, "Destinataire")
            == Salutation(t) + Body + (Closing(t, l) + Sender)
  {
    ClosingPlain(t, l);
    if t == Formel {
      FillFormalShape(Opening(t), Closing(t, l));
    } else {
      FirstStepGreeting(t, l);
    }
  }

  lemma FirstStepGreeting(t: Tone, l: Length)
    requires t != Formel
    ensures ReplaceFirst(Template(t, l), Recipient, "Destinataire")
            == Salutation(t) + Body + (Closing(t, l) + Sender)
  {
    var g := Greeting(t);
    assert '{' !in g;
    assert Template(t, l) == g + Recipient + ",\n\n" + Body + Closing(t, l) + Sender;
    FillGreetingShape(g, Closing(t, l));
  }

  /** The body replacement splices a `$`-free body sentence in. */
  lemma SecondStep(content: string, t: Tone, l: Length)
    requires '$' !in content
    ensures ReplaceFirst(ReplaceFirst(Template(t, l), Recipient, "Destinataire"), Body, content)
            == Salutation(t) + content + (Closing(t, l) + Sender)
  {
    PlaceholdersWellFormed();
    FirstStep(t, l);
    ReplaceAfterPlain(Salutation(t), Body, Closing(t, l) + Sender, content);
  }

  /** The sender replacement behind brace-free text. */
  lemma FillSender(a: string, b: string, k: string)
    requires '{' !in a && '{' !in b && '{' !in k
    ensures ReplaceFirst(a + b + (k + Sender), Sender, "Votre nom") == a + b + k + "Votre nom"
  {
    PlaceholdersWellFormed();
    assert a + b + (k + Sender) == (a + b + k) + Sender + [];
    assert '$' !in "Votre nom";
    ReplaceAfterPlain(a + b + k, Sender, [], "Votre nom");
  }


  /** For a context free of `{` and `$`, the email is the filled-in greeting,
      the body sentence quoting the context verbatim, the closing of the
      resolved template and the sender name. */
  lemma GenerateEmailShape(context: string, tone: string, length: string, language: string)
    requires Plain(context)
    ensures var (t, l) := Resolve(tone, length);
      GenerateEmail(context, tone, length, language)
        == Salutation(t) + Content(context) + Closing(t, l) + "Votre nom"
  {
    var (t, l) := Resolve(tone, length);
    ContentPlain(context);
    ClosingPlain(t, l);
    SecondStep(Content(context), t, l);
    FillSender(Salutation(t), Content(context), Closing(t, l));
  }

  /** Every such email ends with the sender name. */
  lemma EmailEndsWithSenderName(context: string, tone: string, length: string, language: string)
    requires Plain(context)
    ensures var email := GenerateEmail(context, tone, length, language);
      |email| >= 9 && email[|email| - 9..] == "Votre nom"
  {
    GenerateEmailShape(context, tone, length, language);
  }

  /** Every such email quotes the context verbatim in the body sentence,
      right after the greeting. */
  lemma EmailQuotesContext(context: string, tone: string, length: string, language: string)
    requires Plain(context)
    ensures OccursAt(GenerateEmail(context, tone, length, language),
                     Lead() + context + Tail(), |Salutation(Resolve(tone, length).0)|)
  {
    GenerateEmailShape(context, tone, length, language);
    var (t, l) := Resolve(tone, length);
    OccursInMiddle(Salutation(t), Content(context), Closing(t, l), "Votre nom");
  }

  /** No placeholder survives in such an email. */
  lemma NoPlaceholderLeft(context: string, tone: string, length: string, language: string)
    requires Plain(context)
    ensures var email := GenerateEmail(context, tone, length, language);
      !Contains(email, Recipient) && !Contains(email, Body) && !Contains(email, Sender)
  {
    PlaceholdersWellFormed();
    GenerateEmailShape(context, tone, length, language);
    var (t, l) := Resolve(tone, length);
    ContentPlain(context);
    ClosingPlain(t, l);
    var email := GenerateEmail(context, tone, length, language);
    assert '{' !in "Votre nom";
    assert '{' !in email;
    NoBraceNoPlaceholder(email, Recipient);
    NoBraceNoPlaceholder(email, Body);
    NoBraceNoPlaceholder(email, Sender);
  }

  /** Formal templates have no recipient: the first replacement leaves
      them unchanged. */
  lemma FormalRecipientUnchanged(l: Length)
    ensures ReplaceFirst(Template(Formel, l), Recipient, "Destinataire") == Template(Formel, l)
  {
    RecipientOnceUnlessFormal(Formel, l);
  }

  /** The `language` argument plays no part in the email. */
  lemma LanguageIgnored(context: string, tone: string, length: string, x: string, y: string)
    ensures GenerateEmail(context, tone, length, x) == GenerateEmail(context, tone, length, y)
  {
  }

  /** A tone or length outside the table gives the professional/medium
      email; the lookup never fails. */
  lemma UnknownKeysFallBack(context: string, tone: string, length: string, language: string)
    requires (forall t :: ToneKey(t) != tone) || (forall l :: LengthKey(l) != length)
    ensures GenerateEmail(context, tone, length, language)
            == GenerateEmail(context, "professionnel", "moyen", language)
  {
    assert Resolve("professionnel", "moyen") == (Professionnel, Moyen);
  }

  /** The form offers tones the table does not have; they fall back. */
  lemma FormOnlyTonesFallBack(context: string, length: string, language: string)
    ensures GenerateEmail(context, "storytelling", length, language)
            == GenerateEmail(context, "professionnel", "moyen", language)
    ensures GenerateEmail(context, "synthétique", length, language)
            == GenerateEmail(context, "professionnel", "moyen", language)
  {
    assert ParseTone("storytelling") == None && ParseTone("synthétique") == None;
    assert Resolve("professionnel", "moyen") == (Professionnel, Moyen);
  }

  /** The sender replacement when the body sentence itself holds
      `{expediteur}`: the first occurrence, inside the sentence, is taken. */
  lemma SenderCaptureShape(sal: string, lead: string, tail: string, k: string)
    requires '{' !in sal && '{' !in lead
    ensures ReplaceFirst(sal + (lead + Sender + tail) + (k + Sender), Sender, "Votre nom")
            == sal + lead + "Votre nom" + (tail + (k + Sender))
  {
    PlaceholdersWellFormed();
    assert sal + (lead + Sender + tail) + (k + Sender) == sal + lead + Sender + (tail + (k + Sender));
    assert '$' !in "Votre nom";
    ReplaceAfterPlain(sal + lead, Sender, tail + (k + Sender), "Votre nom");
  }

  /** A context holding `{expediteur}` captures the sender replacement:
      the name goes into the body sentence and the template's own
      `{expediteur}` is left as the last token of the email. */
  lemma SenderPlaceholderInContext(language: string)
    ensures GenerateEmail(Sender, "professionnel", "court", language)
            == Salutation(Professionnel) + Lead() + "Votre nom"
               + (Tail() + (Closing(Professionnel, Court) + Sender))
  {
    assert Resolve("professionnel", "court") == (Professionnel, Court);
    assert '$' !in Sender;
    SecondStep(Content(Sender), Professionnel, Court);
    SenderCaptureShape(Salutation(Professionnel), Lead(), Tail(), Closing(Professionnel, Court));
  }

  /** The body step when the context is `$$`. */
  lemma DollarShape(sal: string, lead: string, tail: string, after: string)
    requires '{' !in sal && '$' !in lead && '$' !in tail
    ensures ReplaceFirst(sal + Body + after, Body, lead + "$$" + tail) == sal + (lead + "$" + tail) + after
  {
    PlaceholdersWellFormed();
    ReplaceAfterText(sal, Body, after, lead + "$$" + tail);
    ExpandEscapedDollar(lead, tail, Body, sal, after);
  }

  /** A `$$` in the context is a replacement pattern: the email shows a
      single `$`. */
  lemma DollarPatternInContext(language: string)
    ensures GenerateEmail("$$", "professionnel", "court", language)
            == Salutation(Professionnel) + (Lead() + "$" + Tail())
               + Closing(Professionnel, Court) + "Votre nom"
  {
    assert Resolve("professionnel", "court") == (Professionnel, Court);
    var k := Closing(Professionnel, Court);
    ClosingPlain(Professionnel, Court);
    FirstStep(Professionnel, Court);
    DollarShape(Salutation(Professionnel), Lead(), Tail(), k + Sender);
    FillSender(Salutation(Professionnel), Lead() + "$" + Tail(), k);
  }
}
