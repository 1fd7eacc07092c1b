/** The entity-type codes of the Go BigQuery client's `EntityType` and the
    label the page shows for an entity of each type. */
module EntityTypes {

  const DomainEntity: int := 1
  const GroupEmailEntity: int := 2
  const UserEmailEntity: int := 3
  const SpecialGroupEntity: int := 4
  const ViewEntity: int := 5
  const IAMMemberEntity: int := 6
  const RoutineEntity: int := 7
  const DatasetEntity: int := 8

  /** The eight codes, and nothing else. */
  type EntityType = n: int | 1 <= n <= 8 witness 1

  /** A user email with this suffix is a service account. */
  const ServiceAccountSuffix: string := ".iam.gserviceaccount.com"

  /** JavaScript's `s.endsWith(suffix)`. */
  predicate EndsWith(s: string, suffix: string): (r: bool)
    ensures r ==> |suffix| <= |s| && s == s[..|s| - |suffix|] + suffix
    ensures suffix == [] ==> r
    ensures |suffix| > |s| ==> !r
  {
    |suffix| <= |s| && s[|s| - |suffix|..] == suffix
  }

  /** The label of each code when the entity string does not matter,
      at position code - 1. */
  const FixedLabels: seq<string> :=
    ["Domain", "Group", "User", "SpecialGroup", "View", "IAMMember", "Routine", "Dataset"]

  /** The label shown in front of an entity (`entityTypeToString`). */
  function EntityTypeToString(entityType: EntityType, entity: string): (name: string)
    ensures entityType == UserEmailEntity ==>
              (name == "ServiceAccount" <==> EndsWith(entity, ServiceAccountSuffix))
    ensures entityType == UserEmailEntity ==> name in {"ServiceAccount", "User"}
    ensures entityType != UserEmailEntity ==> name == FixedLabels[entityType - 1]
  {
    if entityType == DomainEntity then "Domain"
    else if entityType == GroupEmailEntity then "Group"
    else if entityType == UserEmailEntity then
      (if EndsWith(entity, ServiceAccountSuffix) then "ServiceAccount" else "User")
    else if entityType == SpecialGroupEntity then "SpecialGroup"
    else if entityType == ViewEntity then "View"
    else if entityType == IAMMemberEntity then "IAMMember"
    else if entityType == RoutineEntity then "Routine"
    else "Dataset"
  }

  /** The code a label stands for, if it is one of the classifier's labels. */
  function LabelCode(name: string): (code: int)
    ensures 0 <= code <= 8
  {
    if name == "Domain" then DomainEntity
    else if name == "Group" then GroupEmailEntity
    else if name == "User" || name == "ServiceAccount" then UserEmailEntity
    else if name == "SpecialGroup" then SpecialGroupEntity
    else if name == "View" then ViewEntity
    else if name == "IAMMember" then IAMMemberEntity
    else if name == "Routine" then RoutineEntity
    else if name == "Dataset" then DatasetEntity
    else 0
  }

  /** The label determines the code: no two codes share a label. */
  lemma LabelDeterminesCode(entityType: EntityType, entity: string)
    ensures LabelCode(EntityTypeToString(entityType, entity)) == entityType
  {
  }

  /** For every code except UserEmailEntity the entity string is ignored. */
  lemma LabelIgnoresEntity(entityType: EntityType, e1: string, e2: string)
    requires entityType != UserEmailEntity
    ensures EntityTypeToString(entityType, e1) == EntityTypeToString(entityType, e2)
  {
  }

  /** A string ending in the service-account suffix is labelled a service
      account, whatever precedes the suffix. */
  lemma ServiceAccountBySuffix(prefix: string)
    ensures EntityTypeToString(UserEmailEntity, prefix + ServiceAccountSuffix) == "ServiceAccount"
  {
    var s := prefix + ServiceAccountSuffix;
    assert s[|s| - |ServiceAccountSuffix|..] == ServiceAccountSuffix;
  }

  /** A concrete service-account address gets the service-account label. */
  lemma ServiceAccountExample()
    ensures EntityTypeToString(UserEmailEntity, "svc@x.iam.gserviceaccount.com") == "ServiceAccount"
  {
    ServiceAccountBySuffix("svc@x");
    assert ['s', 'v', 'c', '@', 'x'] + ServiceAccountSuffix == "svc@x.iam.gserviceaccount.com";
  }
}
