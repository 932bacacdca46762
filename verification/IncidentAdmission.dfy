/** Who is let in and what is told: exactly when a call passes its check phase, which
    answer it gets otherwise, and what the records and views say of the draft, the
    caller and the rows read. */
module IncidentAdmission {
  import opened IncidentModels
  import opened CategoryCodec
  import opened Characters
  import opened IncidentStore
  import opened IncidentChecks
  import opened IncidentHistory
  import opened IncidentView

  // ----- codes -----

  /** A code has 1 to 120 characters: upper-case letters, digits, `_`, `.` and `-`. */
  lemma ValidCodeExactly(code: string)
    ensures ValidCode(code) <==>
      && code != "" && |code| <= 120
      && forall k :: 0 <= k < |code| ==> code[k] in UPPER || code[k] in DIGITS || code[k] in {'_', '.', '-'}
  {
    forall k | 0 <= k < |code|
      ensures CodeCharacter(code[k]) <==> code[k] in UPPER || code[k] in DIGITS || code[k] in {'_', '.', '-'}
    {
      UpperLetters(code[k]);
      Digits(code[k]);
    }
    if forall k :: 0 <= k < |code| ==> CodeCharacter(code[k]) {
      forall c | c in code ensures CodeCharacter(c) {
        var k :| 0 <= k < |code| && code[k] == c;
      }
    }
  }

  // ----- authorization -----

  /** The reason a context is turned away for is the first that applies. */
  lemma DenialReasonExactly(context: Option<ActorContext>, roles: set<string>, policyVersion: string, now: int)
    ensures var reason := DenialReason(context, roles, policyVersion, now);
      match context
      case None => reason == Some("UNTRUSTED_CONTEXT")
      case Some(c) =>
        && (!c.trusted ==> reason == Some("UNTRUSTED_CONTEXT"))
        && (c.trusted && now < c.issuedAt ==> reason == Some("CONTEXT_NOT_YET_VALID"))
        && (c.trusted && c.issuedAt <= now && c.expiresAt <= now ==> reason == Some("CONTEXT_EXPIRED"))
        && (c.trusted && c.issuedAt <= now < c.expiresAt ==>
              && (c.policyVersion != policyVersion ==> reason == Some("POLICY_VERSION_MISMATCH"))
              && (c.policyVersion == policyVersion && c.actorType != User ==> reason == Some("ACTOR_TYPE_NOT_ALLOWED"))
              && (c.policyVersion == policyVersion && c.actorType == User ==>
                    && (c.privileged ==> reason == Some("PRIVILEGED_CONTEXT_NOT_ALLOWED"))
                    && (!c.privileged && (forall role :: role in c.roles ==> role !in roles) ==>
                          reason == Some("INCIDENT_ROLE_REQUIRED"))
                    && (!c.privileged && (exists role :: role in c.roles && role in roles) ==> reason == None)))
  {
    if context.Some? {
      AuthorizationIsExact(context.value, roles, policyVersion, now);
      if forall role :: role in context.value.roles ==> role !in roles {
        assert context.value.roles * roles == {};
      }
    }
  }

  /** The incident lies in what the context may see. */
  predicate InReach(c: ActorContext, i: SecurityIncident) {
    || (i.scopeType == EnterpriseScope && c.canViewEnterprise)
    || (i.scopeType == SourceScope && i.scopeId.Some? && i.scopeId.value in c.permittedSourceIds)
    || (i.scopeType == DatasetScope && i.scopeId.Some? && i.scopeId.value in c.permittedDatasetIds)
  }

  // ----- drafts that can be recorded -----

  ghost predicate SoundIncidentDraft(draft: SecurityIncidentDraft, isUuid: string -> bool, now: int) {
    && draft.source.Member? && draft.severity.Member? && draft.scopeType.Member?
    && isUuid(draft.sourceEventReferenceId) && isUuid(draft.evidenceReferenceId)
    && (exists at :: draft.detectedAt == Aware(at) && at <= now)
    && ValidCode(draft.eventCode)
    && (draft.scopeType != Member(EnterpriseScope) ==> draft.scopeId.Some? && 0 < |draft.scopeId.value| <= 200)
  }

  /** The draft's own scope is one the context may record for. */
  ghost predicate DraftInReach(draft: SecurityIncidentDraft, c: ActorContext) {
    || (draft.scopeType == Member(EnterpriseScope) && draft.scopeId == None && c.canViewEnterprise)
    || (exists id :: draft.scopeId == Some(id) && draft.scopeType == Member(SourceScope) && id in c.permittedSourceIds)
    || (exists id :: draft.scopeId == Some(id) && draft.scopeType == Member(DatasetScope) && id in c.permittedDatasetIds)
  }

  ghost predicate SoundBreachDraft(draft: BreachSuspicionDraft, isUuid: string -> bool, now: int) {
    && draft.origin.Member?
    && draft.dataCategories != {} && (forall category :: category in draft.dataCategories ==> category.Member?)
    && isUuid(draft.incidentId) && isUuid(draft.evidenceReferenceId)
    && (exists at :: draft.learnedAt == Aware(at) && at <= now)
    && ValidCode(draft.affectedScopeCode) && ValidCode(draft.containmentActionCode)
    && (draft.origin == Member(DataProcessor) <==> draft.processorNotificationEvidenceId.Some?)
    && (draft.processorNotificationEvidenceId.Some? ==> isUuid(draft.processorNotificationEvidenceId.value))
  }

  ghost predicate SoundDecisionDraft(draft: BreachDecisionDraft, isUuid: string -> bool, now: int) {
    && draft.decision.Member?
    && isUuid(draft.breachId) && isUuid(draft.evidenceReferenceId)
    && (exists at :: draft.decidedAt == Aware(at) && at <= now)
    && ValidCode(draft.reasonCode)
  }

  lemma IncidentDraftExactly(draft: SecurityIncidentDraft, isUuid: string -> bool, c: ActorContext, now: int)
    ensures ValidateIncidentDraft(draft, isUuid, c, now).Invalid? <==> !SoundIncidentDraft(draft, isUuid, now)
    ensures ValidateIncidentDraft(draft, isUuid, c, now).Valid? <==>
      SoundIncidentDraft(draft, isUuid, now) && DraftInReach(draft, c)
    ensures SoundIncidentDraft(draft, isUuid, now) && !DraftInReach(draft, c) ==>
      ValidateIncidentDraft(draft, isUuid, c, now)
        == OutOfScope(match draft.scopeType.value
                      case EnterpriseScope => "ENTERPRISE_SCOPE_DENIED"
                      case SourceScope => "SOURCE_SCOPE_DENIED"
                      case DatasetScope => "DATASET_SCOPE_DENIED")
  {
    if draft.detectedAt.Aware? {
      assert draft.detectedAt == Aware(draft.detectedAt.instant);
    }
  }

  lemma BreachDraftExactly(draft: BreachSuspicionDraft, isUuid: string -> bool, now: int)
    ensures ValidateBreachDraft(draft, isUuid, now).Valid? <==> SoundBreachDraft(draft, isUuid, now)
    ensures !ValidateBreachDraft(draft, isUuid, now).OutOfScope?
  {
    if draft.learnedAt.Aware? {
      assert draft.learnedAt == Aware(draft.learnedAt.instant);
    }
  }

  lemma DecisionDraftExactly(draft: BreachDecisionDraft, isUuid: string -> bool, now: int)
    ensures ValidateDecisionDraft(draft, isUuid, now).Valid? <==> SoundDecisionDraft(draft, isUuid, now)
    ensures !ValidateDecisionDraft(draft, isUuid, now).OutOfScope?
  {
    if draft.decidedAt.Aware? {
      assert draft.decidedAt == Aware(draft.decidedAt.instant);
    }
  }

  // ----- the message of a refused draft -----

  /** A draft with more than one fault is refused for the first. */
  lemma IncidentDraftMessages(draft: SecurityIncidentDraft, isUuid: string -> bool, c: ActorContext, now: int)
    ensures var finding := ValidateIncidentDraft(draft, isUuid, c, now);
      var members := draft.source.Member? && draft.severity.Member? && draft.scopeType.Member?;
      var references := isUuid(draft.sourceEventReferenceId) && isUuid(draft.evidenceReferenceId);
      var timed := draft.detectedAt.Aware? && draft.detectedAt.instant <= now;
      && (draft.source.Foreign? ==> finding == Invalid("Incident source is invalid."))
      && (draft.source.Member? && draft.severity.Foreign? ==> finding == Invalid("Incident severity is invalid."))
      && (draft.source.Member? && draft.severity.Member? && draft.scopeType.Foreign? ==>
            finding == Invalid("Incident scope type is invalid."))
      && (members && !isUuid(draft.sourceEventReferenceId) ==>
            finding == Invalid("Incident source event reference must be a UUID."))
      && (members && isUuid(draft.sourceEventReferenceId) && !isUuid(draft.evidenceReferenceId) ==>
            finding == Invalid("Incident evidence reference must be a UUID."))
      && (members && references && !timed ==> finding == Invalid("Incident detection time is invalid."))
      && (members && references && timed && !ValidCode(draft.eventCode) ==>
            finding == Invalid("Incident event code is invalid."))
      && (members && references && timed && ValidCode(draft.eventCode) && !SoundIncidentDraft(draft, isUuid, now) ==>
            finding == Invalid("Incident scope is invalid."))
  {
    if draft.detectedAt.Aware? {
      assert draft.detectedAt == Aware(draft.detectedAt.instant);
    }
  }

  lemma BreachDraftMessages(draft: BreachSuspicionDraft, isUuid: string -> bool, now: int)
    ensures var finding := ValidateBreachDraft(draft, isUuid, now);
      var members := draft.origin.Member? && forall category :: category in draft.dataCategories ==> category.Member?;
      var references := isUuid(draft.incidentId) && isUuid(draft.evidenceReferenceId);
      var timed := draft.learnedAt.Aware? && draft.learnedAt.instant <= now;
      && (draft.origin.Foreign? ==> finding == Invalid("Breach origin is invalid."))
      && (draft.origin.Member? && !members ==> finding == Invalid("Personal data category is invalid."))
      && (members && !isUuid(draft.incidentId) ==> finding == Invalid("Incident incident must be a UUID."))
      && (members && isUuid(draft.incidentId) && !isUuid(draft.evidenceReferenceId) ==>
            finding == Invalid("Incident evidence reference must be a UUID."))
      && (members && references && !timed ==> finding == Invalid("Breach learned time is invalid."))
      && (members && references && timed && draft.dataCategories == {} ==>
            finding == Invalid("At least one personal data category is required."))
      && (members && references && timed && draft.dataCategories != {} && !ValidCode(draft.affectedScopeCode) ==>
            finding == Invalid("Affected scope code is invalid."))
  {
  }

  /** The later faults of a breach draft. */
  lemma BreachDraftLaterMessages(draft: BreachSuspicionDraft, isUuid: string -> bool, now: int)
    requires draft.origin.Member? && forall category :: category in draft.dataCategories ==> category.Member?
    requires isUuid(draft.incidentId) && isUuid(draft.evidenceReferenceId)
    requires draft.learnedAt.Aware? && draft.learnedAt.instant <= now
    requires draft.dataCategories != {} && ValidCode(draft.affectedScopeCode)
    ensures var evidence, processor := draft.processorNotificationEvidenceId, draft.origin.value == DataProcessor;
      !SoundBreachDraft(draft, isUuid, now) ==>
        ValidateBreachDraft(draft, isUuid, now)
          == Invalid(if !ValidCode(draft.containmentActionCode) then "Containment action code is invalid."
                     else if !processor then "Processor notification evidence is only valid for processor origin."
                     else if evidence.None? then "Processor-origin suspicion requires notification evidence."
                     else "Incident processor notification evidence must be a UUID.")
  {
    assert draft.learnedAt == Aware(draft.learnedAt.instant);
  }

  lemma DecisionDraftMessages(draft: BreachDecisionDraft, isUuid: string -> bool, now: int)
    ensures var finding := ValidateDecisionDraft(draft, isUuid, now);
      var member, references := draft.decision.Member?, isUuid(draft.breachId) && isUuid(draft.evidenceReferenceId);
      var timed := draft.decidedAt.Aware? && draft.decidedAt.instant <= now;
      && (!member ==> finding == Invalid("Breach notification decision is invalid."))
      && (member && !isUuid(draft.breachId) ==> finding == Invalid("Incident breach must be a UUID."))
      && (member && isUuid(draft.breachId) && !isUuid(draft.evidenceReferenceId) ==>
            finding == Invalid("Incident evidence reference must be a UUID."))
      && (member && references && !timed ==> finding == Invalid("Breach decision time is invalid."))
      && (member && references && timed && !ValidCode(draft.reasonCode) ==>
            finding == Invalid("Breach decision reason code is invalid."))
  {
  }

  // ----- the answer to a call -----

  /** A call that is not authorized at an aware clock is denied with the reason, under
      the context only if that is trusted. */
  ghost predicate DeniedFor(verdict: Verdict, context: Option<ActorContext>, roles: set<string>, policyVersion: string, now: int) {
    exists reason ::
      && DenialReason(context, roles, policyVersion, now) == Some(reason)
      && verdict == Deny(if context.Some? && context.value.trusted then context else None, reason, now)
  }

  /** An incident is recorded exactly for an aware clock, an authorized context, a sound
      draft and a scope within the context's reach; otherwise the first of these that
      fails decides the answer. */
  lemma IncidentCallAnswered(policy: AccessPolicy, isUuid: string -> bool, draft: SecurityIncidentDraft,
                             context: Option<ActorContext>, clock: Timestamp, ids: Ids)
    ensures var verdict := CheckIncident(policy, isUuid, draft, context, clock, ids);
      match clock
      case Naive(_) => verdict == Refuse(Validation("Incident response clock must be timezone-aware."))
      case Aware(now) =>
        if context.None? || !Authorized(context.value, policy.incidentRoles, policy.actorPolicyVersion, now) then
          DeniedFor(verdict, context, policy.incidentRoles, policy.actorPolicyVersion, now)
        else
          && (verdict.Proceed? <==> SoundIncidentDraft(draft, isUuid, now) && DraftInReach(draft, context.value))
          && (verdict.Refuse? <==> !SoundIncidentDraft(draft, isUuid, now))
          && (verdict.Refuse? ==> verdict.error.Validation?)
          && (SoundIncidentDraft(draft, isUuid, now) && !DraftInReach(draft, context.value) ==>
                verdict == Deny(context,
                                match draft.scopeType.value
                                case EnterpriseScope => "ENTERPRISE_SCOPE_DENIED"
                                case SourceScope => "SOURCE_SCOPE_DENIED"
                                case DatasetScope => "DATASET_SCOPE_DENIED",
                                now))
  {
    if clock.Aware? {
      DenialIsExact(context, policy.incidentRoles, policy.actorPolicyVersion, clock.instant);
      if context.Some? {
        IncidentDraftExactly(draft, isUuid, context.value, clock.instant);
      }
    }
  }

  /** A breach is recorded exactly for an aware clock, an authorized context, a sound
      draft, an incident that was found, lies in reach and was detected no later than the
      breach became known; otherwise the first of these that fails decides the answer. */
  lemma BreachCallAnswered(policy: AccessPolicy, isUuid: string -> bool, draft: BreachSuspicionDraft,
                           context: Option<ActorContext>, clock: Timestamp, ids: Ids, read: Lookup<SecurityIncident>)
    ensures var verdict := CheckBreach(policy, isUuid, draft, context, clock, ids, read);
      match clock
      case Naive(_) => verdict == Refuse(Validation("Incident response clock must be timezone-aware."))
      case Aware(now) =>
        if context.None? || !Authorized(context.value, policy.privacyRoles, policy.actorPolicyVersion, now) then
          DeniedFor(verdict, context, policy.privacyRoles, policy.actorPolicyVersion, now)
        else if !SoundBreachDraft(draft, isUuid, now) then verdict.Refuse? && verdict.error.Validation?
        else
          match read
          case Missing => verdict == Refuse(NotFound)
          case Broken => verdict == Refuse(Technical(context.value.correlationId))
          case Found(i) =>
            && (verdict.Proceed? <==> InReach(context.value, i) && i.detectedAt <= draft.learnedAt.instant)
            && (!InReach(context.value, i) ==> verdict == Deny(context, "INCIDENT_SCOPE_DENIED", now))
            && (InReach(context.value, i) && draft.learnedAt.instant < i.detectedAt ==>
                  verdict == Refuse(Validation("Breach learned time cannot precede incident detection.")))
  {
    if clock.Aware? {
      DenialIsExact(context, policy.privacyRoles, policy.actorPolicyVersion, clock.instant);
      BreachDraftExactly(draft, isUuid, clock.instant);
    }
  }

  /** A decision is recorded exactly for an aware clock, an authorized context, a sound
      draft, a breach and an incident that were found, an incident in reach, a caller who
      did not record the breach, and a time not before the breach became known; otherwise
      the first of these that fails decides the answer. */
  lemma DecisionCallAnswered(policy: AccessPolicy, isUuid: string -> bool, draft: BreachDecisionDraft,
                             context: Option<ActorContext>, clock: Timestamp, ids: Ids,
                             readBreach: Lookup<BreachSuspicion>, read: Lookup<SecurityIncident>)
    ensures var verdict := CheckDecision(policy, isUuid, draft, context, clock, ids, readBreach, read);
      match clock
      case Naive(_) => verdict == Refuse(Validation("Incident response clock must be timezone-aware."))
      case Aware(now) =>
        if context.None? || !Authorized(context.value, policy.privacyRoles, policy.actorPolicyVersion, now) then
          DeniedFor(verdict, context, policy.privacyRoles, policy.actorPolicyVersion, now)
        else if !SoundDecisionDraft(draft, isUuid, now) then verdict.Refuse? && verdict.error.Validation?
        else DecisionAnswer(verdict, draft, context.value, now, readBreach, read)
  {
    if clock.Aware? {
      DenialIsExact(context, policy.privacyRoles, policy.actorPolicyVersion, clock.instant);
      DecisionDraftExactly(draft, isUuid, clock.instant);
    }
  }

  ghost predicate DecisionAnswer(verdict: Verdict, draft: BreachDecisionDraft, c: ActorContext, now: int,
                                 readBreach: Lookup<BreachSuspicion>, read: Lookup<SecurityIncident>)
    requires draft.decidedAt.Aware?
  {
    && (readBreach.Missing? ==> verdict == Refuse(NotFound))
    && (readBreach.Broken? ==> verdict == Refuse(Technical(c.correlationId)))
    && (readBreach.Found? && read.Missing? ==> verdict == Refuse(NotFound))
    && (readBreach.Found? && read.Broken? ==> verdict == Refuse(Technical(c.correlationId)))
    && (readBreach.Found? && read.Found? ==>
          var b, i := readBreach.row, read.row;
          && (verdict.Proceed? <==> InReach(c, i) && b.recordedBy != c.actorId && b.learnedAt <= draft.decidedAt.instant)
          && (!InReach(c, i) ==> verdict == Deny(Some(c), "INCIDENT_SCOPE_DENIED", now))
          && (InReach(c, i) && b.recordedBy == c.actorId ==> verdict == Deny(Some(c), "MAKER_CHECKER_REQUIRED", now))
          && (InReach(c, i) && b.recordedBy != c.actorId && draft.decidedAt.instant < b.learnedAt ==>
                verdict == Refuse(Validation("Breach decision time cannot precede learned time."))))
  }

  // ----- what is written down -----

  /** A recorded incident, its entry and its audit, from the draft and the caller. */
  lemma IncidentIsWrittenAsDrafted(policy: AccessPolicy, isUuid: string -> bool, draft: SecurityIncidentDraft,
                                   context: Option<ActorContext>, clock: Timestamp, ids: Ids)
    requires CheckIncident(policy, isUuid, draft, context, clock, ids).Proceed?
    ensures var op := CheckIncident(policy, isUuid, draft, context, clock, ids).op;
      var c, now, at := context.value, clock.instant, draft.detectedAt.instant;
      && op.IncidentOp? && op.context == c && op.at == now
      && op.incident == SecurityIncident(
           ids.recordId, draft.sourceEventReferenceId, at, draft.source.value, draft.severity.value, draft.eventCode,
           draft.scopeType.value, draft.scopeId, draft.evidenceReferenceId, c.actorId, now)
      && op.entry == TimelineEntry(
           ids.first, ids.recordId, None, SecurityIncidentRecorded, at, c.actorId, draft.eventCode, draft.evidenceReferenceId)
      && op.event == AuditEvent(
           ids.eventId, c.actorId, Some(User), c.correlationId, IncidentRecordedAction, Some(ids.recordId), Success,
           draft.eventCode,
           IncidentValues(policy.version, draft.source.value, draft.severity.value, draft.eventCode, draft.scopeType.value),
           now, Some(c.sessionId))
  {
    DenialIsExact(context, policy.incidentRoles, policy.actorPolicyVersion, clock.instant);
  }

  /** A recorded breach: its deadline is 72 hours after the learned time, its categories
      are those of the draft, and its entries tell the suspicion at the learned time and
      the rest at the time of recording. */
  lemma BreachIsWrittenAsDrafted(policy: AccessPolicy, isUuid: string -> bool, draft: BreachSuspicionDraft,
                                 context: Option<ActorContext>, clock: Timestamp, ids: Ids, read: Lookup<SecurityIncident>)
    requires CheckBreach(policy, isUuid, draft, context, clock, ids, read).Proceed?
    ensures var op := CheckBreach(policy, isUuid, draft, context, clock, ids, read).op;
      var c, now, learned := context.value, clock.instant, draft.learnedAt.instant;
      && op.BreachOp? && op.context == c && op.at == now && read == Found(op.read)
      && op.breach == BreachSuspicion(
           ids.recordId, read.row.incidentId, learned, learned + 259_200_000_000, draft.origin.value,
           op.breach.dataCategories, draft.affectedScopeCode, draft.containmentActionCode, draft.evidenceReferenceId,
           draft.processorNotificationEvidenceId, AssessmentPending, c.actorId, now)
      && op.row == BreachRow(
           ids.recordId, read.row.incidentId, learned, learned + 259_200_000_000, draft.origin.value,
           op.row.dataCategories, draft.affectedScopeCode, draft.containmentActionCode, draft.evidenceReferenceId,
           draft.processorNotificationEvidenceId, AssessmentPending, c.actorId, now)
  {
  }

  lemma BreachCategoriesAreTheDrafts(policy: AccessPolicy, isUuid: string -> bool, draft: BreachSuspicionDraft,
                                     context: Option<ActorContext>, clock: Timestamp, ids: Ids, read: Lookup<SecurityIncident>,
                                     category: PersonalDataCategory)
    requires CheckBreach(policy, isUuid, draft, context, clock, ids, read).Proceed?
    ensures var op := CheckBreach(policy, isUuid, draft, context, clock, ids, read).op;
      && op.BreachOp? && DecodeCategories(op.row.dataCategories) == Some(op.breach.dataCategories)
      && (category in op.breach.dataCategories <==> Member(category) in draft.dataCategories)
  {
    var members := Members(draft.dataCategories);
    MembersNonEmpty(draft.dataCategories);
    CategoriesRoundTrip(members);
    assert category in {PersonalData, SpecialCategoryPersonalData};
  }

  lemma BreachEntriesTellTheDraft(policy: AccessPolicy, isUuid: string -> bool, draft: BreachSuspicionDraft,
                                  context: Option<ActorContext>, clock: Timestamp, ids: Ids, read: Lookup<SecurityIncident>)
    requires CheckBreach(policy, isUuid, draft, context, clock, ids, read).Proceed?
    ensures var op := CheckBreach(policy, isUuid, draft, context, clock, ids, read).op;
      var c, now, learned, evidence := context.value, clock.instant, draft.learnedAt.instant, draft.processorNotificationEvidenceId;
      && op.BreachOp?
      && |op.entries| == (if evidence.Some? then 3 else 2)
      && op.entries[0] == TimelineEntry(
           ids.first, read.row.incidentId, Some(ids.recordId), BreachSuspicionRecorded, learned, c.actorId,
           draft.affectedScopeCode, draft.evidenceReferenceId)
      && op.entries[1] == TimelineEntry(
           ids.second, read.row.incidentId, Some(ids.recordId), ContainmentRecorded, now, c.actorId,
           draft.containmentActionCode, draft.evidenceReferenceId)
      && (evidence.Some? ==> op.entries[2] == TimelineEntry(
           ids.third, read.row.incidentId, Some(ids.recordId), ProcessorNoticeEvidenceRecorded, now, c.actorId,
           "PROCESSOR_NOTICE_EVIDENCE_PRESENT", evidence.value))
  {
  }

  lemma BreachAuditTellsTheDraft(policy: AccessPolicy, isUuid: string -> bool, draft: BreachSuspicionDraft,
                                 context: Option<ActorContext>, clock: Timestamp, ids: Ids, read: Lookup<SecurityIncident>)
    requires CheckBreach(policy, isUuid, draft, context, clock, ids, read).Proceed?
    ensures var op := CheckBreach(policy, isUuid, draft, context, clock, ids, read).op;
      var c, now, learned := context.value, clock.instant, draft.learnedAt.instant;
      && op.BreachOp?
      && op.event == AuditEvent(
           ids.eventId, c.actorId, Some(User), c.correlationId, BreachRecordedAction, Some(ids.recordId), Success,
           "ASSESSMENT_PENDING",
           BreachValues(policy.version, draft.origin.value, |op.breach.dataCategories|, AssessmentPending,
                        learned + 259_200_000_000, draft.origin.value == DataProcessor, draft.containmentActionCode),
           now, Some(c.sessionId))
  {
    DenialIsExact(context, policy.privacyRoles, policy.actorPolicyVersion, clock.instant);
    BreachDraftExactly(draft, isUuid, clock.instant);
  }

  /** A recorded decision, its entry and its audit, with the value that tells whether
      the decision came within 72 hours of the learned time. */
  lemma DecisionIsWrittenAsDrafted(policy: AccessPolicy, isUuid: string -> bool, draft: BreachDecisionDraft,
                                   context: Option<ActorContext>, clock: Timestamp, ids: Ids,
                                   readBreach: Lookup<BreachSuspicion>, read: Lookup<SecurityIncident>)
    requires CheckDecision(policy, isUuid, draft, context, clock, ids, readBreach, read).Proceed?
    ensures var op := CheckDecision(policy, isUuid, draft, context, clock, ids, readBreach, read).op;
      var c, now, at, breachId := context.value, clock.instant, draft.decidedAt.instant, readBreach.row.breachId;
      && op.DecisionOp? && op.context == c && op.at == now && readBreach == Found(op.readBreach) && read == Found(op.read)
      && op.decision == BreachDecision(
           ids.recordId, breachId, draft.decision.value, at, draft.reasonCode, draft.evidenceReferenceId, c.actorId, now, false)
      && op.entry == TimelineEntry(
           ids.first, read.row.incidentId, Some(breachId), NotificationDecisionRecorded, at, c.actorId, draft.reasonCode,
           draft.evidenceReferenceId)
      && op.event == AuditEvent(
           ids.eventId, c.actorId, Some(User), c.correlationId, DecisionRecordedAction, Some(ids.recordId), Success,
           draft.reasonCode,
           DecisionValues(policy.version, draft.decision.value, draft.reasonCode, at <= readBreach.row.evaluationDeadlineAt),
           now, Some(c.sessionId))
  {
    DenialIsExact(context, policy.privacyRoles, policy.actorPolicyVersion, clock.instant);
  }

  /** The texts for the sets of categories; the first is never stored. */
  lemma CategoryTexts()
    ensures EncodeCategories({}) == ""
    ensures EncodeCategories({PersonalData}) == "PERSONAL_DATA"
    ensures EncodeCategories({SpecialCategoryPersonalData}) == "SPECIAL_CATEGORY_PERSONAL_DATA"
    ensures EncodeCategories({PersonalData, SpecialCategoryPersonalData})
      == "PERSONAL_DATA" + "," + "SPECIAL_CATEGORY_PERSONAL_DATA"
  {
    var both := SortedTexts({PersonalData, SpecialCategoryPersonalData});
    assert both == ["PERSONAL_DATA", "SPECIAL_CATEGORY_PERSONAL_DATA"];
    assert both[1..] == ["SPECIAL_CATEGORY_PERSONAL_DATA"];
    assert Join(both) == both[0] + "," + Join(both[1..]);
  }

  /** What a staged denial says. */
  lemma DenialSays(policy: AccessPolicy, context: Option<ActorContext>, reason: string, at: int, eventId: string)
    ensures var event := DenialAudit(policy, context, reason, at, eventId);
      && event.eventId == eventId && event.action == AuthorizationAction && event.result == Denied && event.objectId == None
      && event.reasonCode == reason && event.newValues == DenialValues(policy.version, reason) && event.occurredAt == at
      && (context.None? ==> event.actorId == "UNKNOWN" && event.actorType == None && event.sessionId == None
                            && event.correlationId == "incident-access-denied")
      && (context.Some? ==> event.actorId == context.value.actorId && event.actorType == Some(context.value.actorType)
                            && event.sessionId == Some(context.value.sessionId)
                            && event.correlationId == context.value.correlationId)
  {
  }

  /** Two entries are the same but for their random identifiers exactly when the rest agrees. */
  lemma BlanksAgreeExactly(x: TimelineEntry, y: TimelineEntry)
    ensures Blank(x) == Blank(y) <==>
      && x.incidentId == y.incidentId && x.breachId == y.breachId && x.eventType == y.eventType && x.eventAt == y.eventAt
      && x.actorId == y.actorId && x.reasonCode == y.reasonCode && x.evidenceReferenceId == y.evidenceReferenceId
  {
  }

  // ----- the answer to a view -----

  /** The incident of a stored breach. */
  function IncidentOf(s: Store, breachId: string): Option<SecurityIncident> {
    match FindBreach(s.breaches, breachId)
    case None => None
    case Some(row) => FindIncident(s.incidents, row.incidentId)
  }

  /** A view is handed out only to an authorized context that may see the breach's
      incident, whatever reads fail. */
  lemma ShownOnlyInReach(policy: AccessPolicy, isUuid: string -> bool, query: TimelineQuery, context: Option<ActorContext>,
                         clock: Timestamp, eventId: string, s: Store, failing: Option<nat>)
    requires ViewBreach(policy, isUuid, query, context, clock, eventId, s, failing).Show?
    ensures clock.Aware? && context.Some?
    ensures Authorized(context.value, policy.privacyRoles, policy.actorPolicyVersion, clock.instant)
    ensures IncidentOf(s, query.breachId).Some? && InReach(context.value, IncidentOf(s, query.breachId).value)
  {
  }

  /** What a view is answered before its reads, and what the first read decides: an
      unknown breach is not found, and one outside the context's reach is denied. */
  lemma ViewAnswered(policy: AccessPolicy, isUuid: string -> bool, query: TimelineQuery, context: Option<ActorContext>,
                     clock: Timestamp, eventId: string, s: Store)
    ensures var verdict := ViewBreach(policy, isUuid, query, context, clock, eventId, s, None);
      match clock
      case Naive(_) => verdict == ViewRefuse(Validation("Incident response clock must be timezone-aware."))
      case Aware(now) =>
        if context.None? || !Authorized(context.value, policy.privacyRoles, policy.actorPolicyVersion, now) then
          exists reason ::
            && DenialReason(context, policy.privacyRoles, policy.actorPolicyVersion, now) == Some(reason)
            && verdict == ViewDeny(if context.Some? && context.value.trusted then context else None, reason, now)
        else if !isUuid(query.breachId) then verdict == ViewRefuse(Validation("Incident breach must be a UUID."))
        else if !ValidCode(query.reasonCode) then
          verdict == ViewRefuse(Validation("Breach timeline query reason code is invalid."))
        else
          match IncidentOf(s, query.breachId)
          case None => verdict == ViewRefuse(NotFound)
          case Some(i) =>
            if !InReach(context.value, i) then verdict == ViewDeny(context, "INCIDENT_SCOPE_DENIED", now)
            else verdict.Show? || verdict == ViewRefuse(Technical(context.value.correlationId))
  {
    if clock.Aware? {
      DenialIsExact(context, policy.privacyRoles, policy.actorPolicyVersion, clock.instant);
    }
  }

  /** A failing read makes the view fail, unless the scope, which is read first, has
      already decided. */
  lemma FailedReadAnswered(policy: AccessPolicy, isUuid: string -> bool, query: TimelineQuery, c: ActorContext, now: int,
                           eventId: string, s: Store, k: nat)
    requires Authorized(c, policy.privacyRoles, policy.actorPolicyVersion, now)
    requires isUuid(query.breachId) && ValidCode(query.reasonCode)
    requires SoundAndPresentable(s) && IncidentOf(s, query.breachId).Some?
    ensures var verdict := ViewBreach(policy, isUuid, query, Some(c), Aware(now), eventId, s, Some(k));
      && (k == 0 || (k < 5 && InReach(c, IncidentOf(s, query.breachId).value)) ==>
            verdict == ViewRefuse(Technical(c.correlationId)))
      && (k > 0 && !InReach(c, IncidentOf(s, query.breachId).value) ==>
            verdict == ViewDeny(Some(c), "INCIDENT_SCOPE_DENIED", now))
      && (k >= 5 ==> verdict == ViewBreach(policy, isUuid, query, Some(c), Aware(now), eventId, s, None))
  {
    var i := IncidentOf(s, query.breachId).value;
    var b, d := ReadBreach(s, query.breachId).row, FindDecision(s.decisions, query.breachId);
    ReadsWithFailure(policy, isUuid, query, c, now, eventId, s, Some(k));
    ReadsWithFailure(policy, isUuid, query, c, now, eventId, s, None);
    FailureJudged(policy, query, c, now, eventId, i, b, d, EntriesOf(s.timeline, i.incidentId), k);
  }

  /** The verdict on reads of which the one at `failing` fails. */
  function JudgeReads(policy: AccessPolicy, query: TimelineQuery, c: ActorContext, now: int, eventId: string,
                      i: SecurityIncident, b: BreachSuspicion, d: Option<BreachDecision>, es: seq<TimelineEntry>,
                      failing: Option<nat>): ViewVerdict
  {
    var breach := Attempt(failing, 1, Found(b));
    var incident := Attempt(failing, 2, if breach.Found? then Found(i) else Broken);
    JudgeView(policy, query, c, now, eventId, Attempt(failing, 0, Found(i)), breach, incident,
              Attempt(failing, 3, if breach.Found? then Found(d) else Broken),
              Attempt(failing, 4, if incident.Found? then Found(es) else Broken))
  }

  lemma ReadsWithFailure(policy: AccessPolicy, isUuid: string -> bool, query: TimelineQuery, c: ActorContext, now: int,
                         eventId: string, s: Store, failing: Option<nat>)
    requires Authorized(c, policy.privacyRoles, policy.actorPolicyVersion, now)
    requires isUuid(query.breachId) && ValidCode(query.reasonCode)
    requires SoundAndPresentable(s) && IncidentOf(s, query.breachId).Some?
    ensures ReadBreach(s, query.breachId).Found?
    ensures var i, b := IncidentOf(s, query.breachId).value, ReadBreach(s, query.breachId).row;
      ViewBreach(policy, isUuid, query, Some(c), Aware(now), eventId, s, failing)
        == JudgeReads(policy, query, c, now, eventId, i, b, FindDecision(s.decisions, query.breachId),
                      EntriesOf(s.timeline, i.incidentId), failing)
  {
    AuthorizedIsAdmitted(policy, isUuid, query, c, now);
    StoredReads(s, FindBreach(s.breaches, query.breachId).value, IncidentOf(s, query.breachId).value);
  }

  lemma FailureJudged(policy: AccessPolicy, query: TimelineQuery, c: ActorContext, now: int, eventId: string,
                      i: SecurityIncident, b: BreachSuspicion, d: Option<BreachDecision>, es: seq<TimelineEntry>, k: nat)
    ensures var verdict := JudgeReads(policy, query, c, now, eventId, i, b, d, es, Some(k));
      && (k == 0 || (k < 5 && InReach(c, i)) ==> verdict == ViewRefuse(Technical(c.correlationId)))
      && (k > 0 && !InReach(c, i) ==> verdict == ViewDeny(Some(c), "INCIDENT_SCOPE_DENIED", now))
      && (k >= 5 ==> verdict == JudgeReads(policy, query, c, now, eventId, i, b, d, es, None))
  {
  }

  /** The event staged for a view that is handed out. */
  lemma ShownViewIsAudited(policy: AccessPolicy, isUuid: string -> bool, query: TimelineQuery, context: Option<ActorContext>,
                           clock: Timestamp, eventId: string, s: Store, failing: Option<nat>)
    requires ViewBreach(policy, isUuid, query, context, clock, eventId, s, failing).Show?
    ensures context.Some? && clock.Aware?
    ensures var verdict := ViewBreach(policy, isUuid, query, context, clock, eventId, s, failing);
      var c, view := context.value, verdict.view;
      && verdict.event == AuditEvent(
           eventId, c.actorId, Some(User), c.correlationId, TimelineViewedAction, Some(view.breachId), Success,
           "QUERY_COMPLETED",
           ViewValues(policy.version, query.reasonCode, view.status, view.deadlineStatus, |view.timeline|,
                      view.dataCategoryCount, view.processorEvidencePresent),
           clock.instant, Some(c.sessionId))
      && view.policyVersion == policy.version && view.createdAt == clock.instant
  {
  }

  // ----- the validator, counted out -----

  function CountOf(es: seq<TimelineEntry>, t: TimelineEventType): nat {
    if es == [] then 0 else CountOf(es[..|es| - 1], t) + if es[|es| - 1].eventType == t then 1 else 0
  }

  lemma {:induction false} CountsAddUp(es: seq<TimelineEntry>)
    ensures |es| == CountOf(es, SecurityIncidentRecorded) + CountOf(es, BreachSuspicionRecorded)
                    + CountOf(es, ContainmentRecorded) + CountOf(es, ProcessorNoticeEvidenceRecorded)
                    + CountOf(es, NotificationDecisionRecorded)
  {
    if es != [] {
      CountsAddUp(es[..|es| - 1]);
    }
  }

  lemma {:induction false} CountedIsThere(es: seq<TimelineEntry>, t: TimelineEventType)
    ensures CountOf(es, t) > 0 <==> HasType(es, t)
  {
    if es != [] {
      var front := es[..|es| - 1];
      CountedIsThere(front, t);
      assert es == front + [es[|es| - 1]];
    }
  }

  lemma {:induction false} DistinctIsCountedOnce(es: seq<TimelineEntry>, t: TimelineEventType)
    requires DistinctTypes(es)
    ensures CountOf(es, t) <= 1
  {
    if es != [] {
      var front := es[..|es| - 1];
      DistinctIsCountedOnce(front, t);
      CountedIsThere(front, t);
      if CountOf(front, t) > 0 {
        var k :| 0 <= k < |front| && front[k].eventType == t;
        assert es[k].eventType != es[|es| - 1].eventType;
      }
    }
  }

  lemma {:induction false} CountedOnceIsDistinct(es: seq<TimelineEntry>, j: nat, k: nat)
    requires j < k < |es| && CountOf(es, es[k].eventType) <= 1
    ensures es[j].eventType != es[k].eventType
  {
    var front, t := es[..|es| - 1], es[k].eventType;
    if k == |es| - 1 {
      CountedIsThere(front, t);
      assert front[j] == es[j] && front[j] in front;
    } else {
      CountedOnceIsDistinct(front, j, k);
    }
  }

  /** The validator accepts exactly one entry each of incident, suspicion and containment,
      one of the processor's notice if the breach has evidence of it, one of the decision
      if there is one, and no other; all of this incident, all but the incident's own of
      this breach, none later than the clock, and all with a valid code. */
  lemma ValidatorCounts(es: seq<TimelineEntry>, i: SecurityIncident, b: BreachSuspicion, d: Option<BreachDecision>, now: int)
    ensures TimelineIsValid(es, i, b, d, now) <==>
      && CountOf(es, SecurityIncidentRecorded) == 1
      && CountOf(es, BreachSuspicionRecorded) == 1
      && CountOf(es, ContainmentRecorded) == 1
      && CountOf(es, ProcessorNoticeEvidenceRecorded) == (if b.processorNotificationEvidenceId.Some? then 1 else 0)
      && CountOf(es, NotificationDecisionRecorded) == (if d.Some? then 1 else 0)
      && (forall e :: e in es ==>
            && e.incidentId == i.incidentId && e.eventAt <= now && ValidCode(e.reasonCode)
            && (e.eventType == SecurityIncidentRecorded ==> e.breachId == None)
            && (e.eventType != SecurityIncidentRecorded ==> e.breachId == Some(b.breachId)))
  {
    forall t ensures CountOf(es, t) > 0 <==> HasType(es, t) {
      CountedIsThere(es, t);
    }
    if DistinctTypes(es) {
      forall t ensures CountOf(es, t) <= 1 {
        DistinctIsCountedOnce(es, t);
      }
    }
    if forall t :: CountOf(es, t) <= 1 {
      forall j, k | 0 <= j < k < |es| ensures es[j].eventType != es[k].eventType {
        CountedOnceIsDistinct(es, j, k);
      }
    }
    CountsAddUp(es);
    TypesAreFive(es);
  }

  lemma TypesAreFive(es: seq<TimelineEntry>)
    ensures (forall t :: CountOf(es, t) <= 1) <==>
      && CountOf(es, SecurityIncidentRecorded) <= 1 && CountOf(es, BreachSuspicionRecorded) <= 1
      && CountOf(es, ContainmentRecorded) <= 1 && CountOf(es, ProcessorNoticeEvidenceRecorded) <= 1
      && CountOf(es, NotificationDecisionRecorded) <= 1
  {
    if && CountOf(es, SecurityIncidentRecorded) <= 1 && CountOf(es, BreachSuspicionRecorded) <= 1
       && CountOf(es, ContainmentRecorded) <= 1 && CountOf(es, ProcessorNoticeEvidenceRecorded) <= 1
       && CountOf(es, NotificationDecisionRecorded) <= 1 {
      forall t ensures CountOf(es, t) <= 1 {
        match t {
          case SecurityIncidentRecorded =>
          case BreachSuspicionRecorded =>
          case ContainmentRecorded =>
          case ProcessorNoticeEvidenceRecorded =>
          case NotificationDecisionRecorded =>
        }
      }
    }
  }

  // ----- the order of a view -----

  /** The stored names of the event types. */
  function TypeName(t: TimelineEventType): string {
    match t
    case SecurityIncidentRecorded => "SECURITY_INCIDENT_RECORDED"
    case BreachSuspicionRecorded => "BREACH_SUSPICION_RECORDED"
    case ContainmentRecorded => "CONTAINMENT_RECORDED"
    case ProcessorNoticeEvidenceRecorded => "PROCESSOR_NOTICE_EVIDENCE_RECORDED"
    case NotificationDecisionRecorded => "NOTIFICATION_DECISION_RECORDED"
  }

  /** `a` stands before `b` in a dictionary. */
  ghost predicate Alphabetical(a: string, b: string) {
    exists k :: 0 <= k <= |a| && k <= |b| && a[..k] == b[..k] && (k == |a| || (k < |b| && a[k] < b[k]))
  }

  lemma SameStart(a: string, b: string, k: nat)
    requires 0 < k <= |a| && k <= |b| && a[..k] == b[..k]
    ensures a[0] == b[0]
  {
    assert a[..k][0] == b[..k][0];
  }

  lemma FirstLetterDecides(a: string, b: string)
    requires a != "" && b != "" && a[0] != b[0]
    ensures Alphabetical(a, b) <==> a[0] < b[0]
  {
    if Alphabetical(a, b) {
      var k :| 0 <= k <= |a| && k <= |b| && a[..k] == b[..k] && (k == |a| || (k < |b| && a[k] < b[k]));
      if k > 0 {
        SameStart(a, b, k);
      }
    }
    if a[0] < b[0] {
      assert a[..0] == b[..0];
    }
  }

  lemma SameIsAlphabetical(a: string)
    ensures Alphabetical(a, a)
  {
    assert a[..|a|] == a[..|a|];
  }

  /** The rank of an event type is its place in the alphabet. */
  lemma RankIsAlphabetical(a: TimelineEventType, b: TimelineEventType)
    ensures Rank(a) <= Rank(b) <==> Alphabetical(TypeName(a), TypeName(b))
  {
    if a == b {
      SameIsAlphabetical(TypeName(a));
    } else {
      FirstLetterDecides(TypeName(a), TypeName(b));
    }
  }

  /** A view lists type, time and code of each stored entry, once, by time and, at the
      same time, by the names of the types. */
  ghost predicate ListsInOrder(views: seq<EventView>, es: seq<TimelineEntry>) {
    && |views| == |es|
    && (forall k :: 0 <= k < |es| ==>
          views[k].eventType == es[k].eventType && views[k].eventAt == es[k].eventAt && views[k].reasonCode == es[k].reasonCode)
    && (forall j, k :: 0 <= j < k < |views| ==>
          || views[j].eventAt < views[k].eventAt
          || (views[j].eventAt == views[k].eventAt && Alphabetical(TypeName(views[j].eventType), TypeName(views[k].eventType))))
  }

  lemma ShownEventsAreListedInOrder(policy: AccessPolicy, isUuid: string -> bool, query: TimelineQuery,
                                    context: Option<ActorContext>, clock: Timestamp, eventId: string, s: Store, row: BreachRow)
    requires SoundAndPresentable(s) && row in s.breaches && row.breachId == query.breachId
    requires ViewBreach(policy, isUuid, query, context, clock, eventId, s, None).Show?
    ensures exists es ::
      && multiset(es) == multiset(EntriesOf(s.timeline, row.incidentId))
      && ListsInOrder(ViewBreach(policy, isUuid, query, context, clock, eventId, s, None).view.timeline, es)
  {
    var stored := EntriesOf(s.timeline, row.incidentId);
    var views := ViewBreach(policy, isUuid, query, context, clock, eventId, s, None).view.timeline;
    ShownViewIsFaithful(policy, isUuid, query, context, clock, eventId, s, row);
    var es :| multiset(es) == multiset(stored) && Sorting.Ordered(Before, es) && views == ViewsOf(es);
    OrderedIsListed(es);
  }

  lemma OrderedIsListed(es: seq<TimelineEntry>)
    requires Sorting.Ordered(Before, es)
    ensures ListsInOrder(ViewsOf(es), es)
  {
    forall j, k | 0 <= j < k < |es|
      ensures es[j].eventAt < es[k].eventAt
        || (es[j].eventAt == es[k].eventAt && Alphabetical(TypeName(es[j].eventType), TypeName(es[k].eventType)))
    {
      assert Before(es[j], es[k]);
      RankIsAlphabetical(es[j].eventType, es[k].eventType);
    }
  }
}
