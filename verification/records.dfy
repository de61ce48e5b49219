/** The rows of the relational tables the backend reads (`employees`,
    `skills`, `certifications`, `project_history`, `bench_status`). Loading
    them is outside the model: every operation takes the tables as
    sequences, in the order the database returned them. */
module Records {
  import opened Wrappers

  /** One `employees` row. `role` and `primary_skill` are nullable columns. */
  datatype EmployeeRecord = EmployeeRecord(
    employeeId: string,
    role: Option<string>,
    primarySkill: Option<string>)

  /** One `skills` row; many per employee. */
  datatype SkillRecord = SkillRecord(
    employeeId: string,
    skillName: string,
    yearsExperience: nat)

  /** One `certifications` row; many per employee. */
  datatype CertificationRecord = CertificationRecord(
    employeeId: string,
    certificateName: string)

  /** One `project_history` row; many per employee. */
  datatype ProjectRecord = ProjectRecord(
    employeeId: string,
    experienceSummary: string)

  /** One `bench_status` row. The table is indexed by employee id but the
      index is not unique: duplicates are possible. */
  datatype BenchRecord = BenchRecord(
    employeeId: string,
    status: string)
}
